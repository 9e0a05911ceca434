/** Small pure helpers next to the price core: the section parser of
    `get_gemini_report_advice` (services.py:821-831), the day-ordinal suffix of
    `get_specific_report` (services.py:268-273), the soil search term of
    `get_crop_recommendations` (services.py:368-370) and its last-crop filter with the
    top-five cap (services.py:412-413). */
module Helpers {
  import opened Wrappers
  import opened Text

  /** One item of parsed advice. */
  datatype Advice = Advice(title: string, description: string)

  const SectionMark: string := "##"
  const TitleMark: string := ":**"
  const Bold: string := "**"
  const FallbackTitle: string := "AI Advice"

  /** Neither end is whitespace, as after `str.strip()`. */
  predicate Stripped(s: string) {
    |s| > 0 ==> !IsSpace(s[0]) && !IsSpace(s[|s| - 1])
  }

  /** "**" occurs in `a + b` only inside one of them or across a seam of two '*'. */
  lemma NoBoldAcross(a: string, b: string)
    requires !Contains(a, Bold) && !Contains(b, Bold)
    requires |a| == 0 || |b| == 0 || a[|a| - 1] != '*' || b[0] != '*'
    ensures !Contains(a + b, Bold)
  {
    forall j | 0 <= j
      ensures !OccursAt(a + b, Bold, j)
    {
      NoBoldAt(a, b, j);
    }
  }

  /** The case of `NoBoldAcross` for a "**" starting at `j`. */
  lemma NoBoldAt(a: string, b: string, j: int)
    requires !Contains(a, Bold) && !Contains(b, Bold)
    requires |a| == 0 || |b| == 0 || a[|a| - 1] != '*' || b[0] != '*'
    requires 0 <= j
    ensures !OccursAt(a + b, Bold, j)
  {
    var s := a + b;
    if j + 2 <= |s| {
      if j + 2 <= |a| {
        BoldAt(a, j);
        assert !OccursAt(a, Bold, j);
        assert s[j] == a[j] && s[j + 1] == a[j + 1];
      } else if |a| <= j {
        BoldAt(b, j - |a|);
        assert !OccursAt(b, Bold, j - |a|);
        assert s[j] == b[j - |a|] && s[j + 1] == b[j - |a| + 1];
      } else {
        assert s[j] == a[|a| - 1] && s[j + 1] == b[0];
      }
    }
    BoldAt(s, j);
  }

  /** "**" starts at `j` exactly when two '*' do. */
  lemma BoldAt(s: string, j: int)
    requires 0 <= j
    ensures OccursAt(s, Bold, j) <==> j + 2 <= |s| && s[j] == '*' && s[j + 1] == '*'
  {
    if j + 2 <= |s| {
      var w := s[j..j + 2];
      assert |w| == 2 && w[0] == s[j] && w[1] == s[j + 1];
      assert |Bold| == 2 && Bold[0] == '*' && Bold[1] == '*';
      if s[j] == '*' && s[j + 1] == '*' {
        assert w == Bold;
      }
    }
  }

  /** No piece but the last ends with '*'. */
  predicate NoTrailingStar(parts: seq<string>) {
    forall k :: 0 <= k < |parts| - 1 && |parts[k]| > 0 ==> parts[k][|parts[k]| - 1] != '*'
  }

  /** No piece of `s.split("**")` but the last ends with '*': that '*' would have begun an
      earlier "**". */
  lemma {:induction false} SplitBoldPieces(s: string)
    ensures NoTrailingStar(SplitOn(s, Bold))
    decreases |s|
  {
    match IndexOf(s, Bold)
    case None =>
    case Some(i) =>
      var rest := s[i + 2..];
      SplitBoldPieces(rest);
      var later := SplitOn(rest, Bold);
      var parts := SplitOn(s, Bold);
      assert parts == [s[..i]] + later;
      if i > 0 {
        assert !OccursAt(s, Bold, i - 1);
        assert s[i] == s[i..i + 2][0] == '*';
        assert s[i - 1..i + 1] == [s[i - 1], s[i]];
        assert parts[0][i - 1] == s[i - 1] != '*';
      }
      forall k | 0 <= k < |parts| - 1 && |parts[k]| > 0
        ensures parts[k][|parts[k]| - 1] != '*'
      {
        if k > 0 {
          assert parts[k] == later[k - 1];
        }
      }
  }

  /** Gluing pieces without "**" and without a trailing '*' (but the last) makes no "**". */
  lemma {:induction false} JoinNoBold(parts: seq<string>)
    requires forall k :: 0 <= k < |parts| ==> !Contains(parts[k], Bold)
    requires NoTrailingStar(parts)
    ensures !Contains(Join(parts, ""), Bold)
    decreases |parts|
  {
    if |parts| > 1 {
      assert forall k :: 1 <= k < |parts| ==> parts[1..][k - 1] == parts[k];
      JoinNoBold(parts[1..]);
      assert parts[0] + "" == parts[0];
      NoBoldAcross(parts[0], Join(parts[1..], ""));
    }
  }

  /** `s.replace("**", "")` holds no "**", and nor does any slice of it. */
  lemma RemoveBoldRemoves(s: string)
    ensures !Contains(RemoveAll(s, Bold), Bold)
    ensures !Contains(Strip(RemoveAll(s, Bold)), Bold)
  {
    var parts := SplitOn(s, Bold);
    SplitBoldPieces(s);
    assert forall k :: 0 <= k < |parts| ==> !Contains(parts[k], Bold);
    JoinNoBold(parts);
    var p, q := StripSlice(RemoveAll(s, Bold));
    SliceMisses(RemoveAll(s, Bold), p, q, Bold);
  }

  /** An item as the parser leaves it: a stripped title free of "**" and a stripped
      description. */
  predicate Tidy(a: Advice) {
    !Contains(a.title, Bold) && Stripped(a.title) && Stripped(a.description)
  }

  /** Some section holds ":**". */
  predicate AnyTitled(sections: seq<string>) {
    exists k :: 0 <= k < |sections| && Contains(sections[k], TitleMark)
  }

  /** No section holds "##". */
  predicate NoSectionMark(sections: seq<string>) {
    forall k :: 0 <= k < |sections| ==> !Contains(sections[k], SectionMark)
  }

  /** `a` is what the parser reads from a section with ":**": the title is the text before
      the first ":**" with every "**" removed, and the description the text after it, each
      with only the whitespace at its ends cut off. */
  ghost predicate ParsedFrom(a: Advice, section: string) {
    && Contains(section, TitleMark)
    && var i := IndexOf(section, TitleMark).value;
    && TrimmedFrom(a.title, RemoveAll(section[..i], Bold))
    && TrimmedFrom(a.description, section[i + |TitleMark|..])
  }

  /** One section of the reply: an item when it holds ":**", titled by what precedes the
      first ":**" with every "**" removed and described by what follows it, both stripped. */
  function SectionAdvice(section: string): (a: Option<Advice>)
    ensures a.Some? <==> Contains(section, TitleMark)
    ensures a.Some? ==> Tidy(a.value)
    ensures a.Some? ==> ParsedFrom(a.value, section)
  {
    match IndexOf(section, TitleMark)
    case None => None
    case Some(i) =>
      RemoveBoldRemoves(section[..i]);
      StripTrims(RemoveAll(section[..i], Bold));
      StripTrims(section[i + |TitleMark|..]);
      Some(Advice(Strip(RemoveAll(section[..i], Bold)), Strip(section[i + |TitleMark|..])))
  }

  /** `t` is the slice `s[p..q]` of the text from `start` on, with whitespace alone between
      `start` and `p` and after `q`. */
  ghost predicate TrimmedAfter(t: string, s: string, start: int) {
    exists p, q :: && 0 <= start <= p <= q <= |s| && t == s[p..q]
                   && (forall k :: start <= k < p ==> IsSpace(s[k]))
                   && (forall k :: q <= k < |s| ==> IsSpace(s[k]))
  }

  /** A section's description is the text after its first ":**" less only the whitespace
      at its two ends, so it holds no "##" when the section holds none. */
  lemma SectionDescription(section: string)
    requires Contains(section, TitleMark)
    ensures var a := SectionAdvice(section).value;
      && TrimmedAfter(a.description, section, IndexOf(section, TitleMark).value + |TitleMark|)
      && (!Contains(section, SectionMark) ==> !Contains(a.description, SectionMark))
  {
    AfterMark(section, IndexOf(section, TitleMark).value + |TitleMark|);
  }

  /** The stripped rest of a section from `start` on is the slice of the section left
      between whitespace alone, and it has no "##" when the section has none. */
  lemma AfterMark(section: string, start: int)
    requires 0 <= start <= |section|
    ensures TrimmedAfter(Strip(section[start..]), section, start)
    ensures !Contains(section, SectionMark) ==> !Contains(Strip(section[start..]), SectionMark)
  {
    StripAfter(section, start);
    if !Contains(section, SectionMark) {
      var after := section[start..];
      var p, q := StripSlice(after);
      SliceMisses(section, start, |section|, SectionMark);
      assert section[start..|section|] == after;
      SliceMisses(after, p, q, SectionMark);
    }
  }

  lemma StripAfter(section: string, start: int)
    requires 0 <= start <= |section|
    ensures TrimmedAfter(Strip(section[start..]), section, start)
  {
    var after := section[start..];
    var p, q := StripSlice(after);
    assert after[p..q] == section[start + p..start + q];
    assert forall k :: start <= k < start + p ==> section[k] == after[k - start];
    assert forall k :: start + q <= k < |section| ==> section[k] == after[k - start];
  }

  /** The item of a section, spelled out from the position of its first ":**". */
  lemma SectionAdviceAt(section: string)
    ensures IndexOf(section, TitleMark).None? ==> SectionAdvice(section).None?
    ensures IndexOf(section, TitleMark).Some? ==>
      var i := IndexOf(section, TitleMark).value;
      SectionAdvice(section) == Some(Advice(Strip(RemoveAll(section[..i], Bold)), Strip(section[i + |TitleMark|..])))
  {
  }

  /** Every section holding ":**" has its item among `items`. */
  predicate AllCollected(sections: seq<string>, items: seq<Advice>) {
    forall k :: 0 <= k < |sections| && Contains(sections[k], TitleMark) ==> SectionAdvice(sections[k]).value in items
  }

  /** Every item is the item of some section. */
  ghost predicate AllFromSections(sections: seq<string>, items: seq<Advice>) {
    forall a :: a in items ==> exists k :: 0 <= k < |sections| && SectionAdvice(sections[k]) == Some(a)
  }

  /** The items of the sections that hold ":**", in order: every such section's item is
      collected, and every item collected is some section's. */
  function SectionsAdvice(sections: seq<string>): (items: seq<Advice>)
    ensures |items| <= |sections|
    ensures |items| > 0 <==> AnyTitled(sections)
    ensures AllCollected(sections, items)
    ensures AllFromSections(sections, items)
    decreases |sections|
  {
    if |sections| == 0 then []
    else
      var rest := SectionsAdvice(sections[..|sections| - 1]);
      var a := SectionAdvice(sections[|sections| - 1]);
      SectionsSnoc(sections, rest);
      rest + (if a.Some? then [a.value] else [])
  }

  /** One more section adds its item, if it has one, to the items of the sections before it. */
  lemma SectionsSnoc(sections: seq<string>, rest: seq<Advice>)
    requires |sections| > 0
    requires var init := sections[..|sections| - 1];
      && |rest| <= |init| && (|rest| > 0 <==> AnyTitled(init))
      && AllCollected(init, rest) && AllFromSections(init, rest)
    ensures var a := SectionAdvice(sections[|sections| - 1]);
      var items := rest + (if a.Some? then [a.value] else []);
      && |items| <= |sections| && (|items| > 0 <==> AnyTitled(sections))
      && AllCollected(sections, items) && AllFromSections(sections, items)
  {
    var init := sections[..|sections| - 1];
    var last := sections[|sections| - 1];
    InitLast(sections);
    assert AnyTitled(sections) <==> AnyTitled(init) || Contains(last, TitleMark);
    CollectedSnoc(sections, init, last, rest);
    FromSectionsSnoc(sections, init, last, rest);
  }

  lemma CollectedSnoc(sections: seq<string>, init: seq<string>, last: string, rest: seq<Advice>)
    requires sections == init + [last] && AllCollected(init, rest)
    ensures AllCollected(sections, rest + (if SectionAdvice(last).Some? then [SectionAdvice(last).value] else []))
  {
    var items := rest + (if SectionAdvice(last).Some? then [SectionAdvice(last).value] else []);
    forall k | 0 <= k < |sections| && Contains(sections[k], TitleMark)
      ensures SectionAdvice(sections[k]).value in items
    {
      if k < |init| {
        assert sections[k] == init[k];
      } else {
        assert sections[k] == last;
      }
    }
  }

  lemma FromSectionsSnoc(sections: seq<string>, init: seq<string>, last: string, rest: seq<Advice>)
    requires sections == init + [last] && AllFromSections(init, rest)
    ensures AllFromSections(sections, rest + (if SectionAdvice(last).Some? then [SectionAdvice(last).value] else []))
  {
    var items := rest + (if SectionAdvice(last).Some? then [SectionAdvice(last).value] else []);
    forall a | a in items
      ensures exists k :: 0 <= k < |sections| && SectionAdvice(sections[k]) == Some(a)
    {
      if a in rest {
        var k :| 0 <= k < |init| && SectionAdvice(init[k]) == Some(a);
        assert sections[k] == init[k];
      } else {
        assert sections[|init|] == last;
      }
    }
  }

  /** The optional item of each section, in order. */
  function SectionOptions(sections: seq<string>): (opts: seq<Option<Advice>>)
    ensures |opts| == |sections|
    decreases |sections|
  {
    if |sections| == 0 then [] else SectionOptions(sections[..|sections| - 1]) + [SectionAdvice(sections[|sections| - 1])]
  }

  lemma SectionOptionsAt(sections: seq<string>, i: int)
    requires 0 <= i < |sections|
    ensures SectionOptions(sections)[i] == SectionAdvice(sections[i])
    decreases |sections|
  {
    if i < |sections| - 1 {
      SectionOptionsAt(sections[..|sections| - 1], i);
    }
  }

  /** `items[k]` is the present value of `opts[idx[k]]`, with `idx` increasing. */
  ghost predicate PickedInOrder<T>(items: seq<T>, opts: seq<Option<T>>, idx: seq<int>) {
    && |idx| == |items|
    && (forall k :: 0 <= k < |idx| ==> 0 <= idx[k] < |opts| && opts[idx[k]] == Some(items[k]))
    && (forall k, l :: 0 <= k < l < |idx| ==> idx[k] < idx[l])
  }

  /** Every section holding ":**" is one of `idx`. */
  predicate TitledIn(sections: seq<string>, idx: seq<int>) {
    forall i :: 0 <= i < |sections| && Contains(sections[i], TitleMark) ==> i in idx
  }

  /** The items come in the order of their sections, one for every section with ":**". */
  lemma {:induction false} SectionsAdviceInOrder(sections: seq<string>) returns (idx: seq<int>)
    ensures PickedInOrder(SectionsAdvice(sections), SectionOptions(sections), idx)
    ensures forall k :: 0 <= k < |idx| ==> SectionAdvice(sections[idx[k]]) == Some(SectionsAdvice(sections)[k])
    ensures TitledIn(sections, idx)
    decreases |sections|
  {
    if |sections| == 0 {
      idx := [];
    } else {
      var init := sections[..|sections| - 1];
      var last := sections[|sections| - 1];
      var before := SectionsAdviceInOrder(init);
      idx := if SectionAdvice(last).Some? then before + [|init|] else before;
      InitLast(sections);
      SectionsAdviceLast(sections);
      PickedSnoc(SectionsAdvice(init), SectionOptions(init), before, SectionAdvice(last));
      TitledInSnoc(sections, before);
    }
    PickedSections(SectionsAdvice(sections), sections, idx);
  }

  /** Items picked in order from the options of the sections are the sections' items. */
  lemma PickedSections(items: seq<Advice>, sections: seq<string>, idx: seq<int>)
    requires PickedInOrder(items, SectionOptions(sections), idx)
    ensures forall k :: 0 <= k < |idx| ==> SectionAdvice(sections[idx[k]]) == Some(items[k])
  {
    forall k | 0 <= k < |idx|
      ensures SectionAdvice(sections[idx[k]]) == Some(items[k])
    {
      SectionOptionsAt(sections, idx[k]);
    }
  }

  /** One more section keeps every titled section's index, adding its own when it is titled. */
  lemma TitledInSnoc(sections: seq<string>, before: seq<int>)
    requires |sections| > 0 && TitledIn(sections[..|sections| - 1], before)
    ensures var n := |sections| - 1;
      TitledIn(sections, if Contains(sections[n], TitleMark) then before + [n] else before)
  {
    var n := |sections| - 1;
    var idx := if Contains(sections[n], TitleMark) then before + [n] else before;
    forall i | 0 <= i < |sections| && Contains(sections[i], TitleMark)
      ensures i in idx
    {
      if i < n {
        assert sections[..n][i] == sections[i];
        assert i in before;
      } else {
        assert idx[|idx| - 1] == i;
      }
    }
  }

  lemma InitLast(sections: seq<string>)
    requires |sections| > 0
    ensures sections == sections[..|sections| - 1] + [sections[|sections| - 1]]
  {
  }

  /** The items of a non-empty list of sections: those of all but the last, then the last's. */
  lemma SectionsAdviceLast(sections: seq<string>)
    requires |sections| > 0
    ensures var a := SectionAdvice(sections[|sections| - 1]);
      SectionsAdvice(sections) == SectionsAdvice(sections[..|sections| - 1]) + (if a.Some? then [a.value] else [])
  {
  }

  /** Appending an option, and picking its value when it has one, keeps the order. */
  lemma PickedSnoc<T>(items: seq<T>, opts: seq<Option<T>>, idx: seq<int>, o: Option<T>)
    requires PickedInOrder(items, opts, idx)
    ensures PickedInOrder(items + (if o.Some? then [o.value] else []), opts + [o], if o.Some? then idx + [|opts|] else idx)
  {
    var all := opts + [o];
    assert forall k :: 0 <= k < |idx| ==> all[idx[k]] == opts[idx[k]];
  }

  predicate AllTidy(items: seq<Advice>) {
    forall k :: 0 <= k < |items| ==> Tidy(items[k])
  }

  /** No description holds "##". */
  predicate AllUnmarked(items: seq<Advice>) {
    forall k :: 0 <= k < |items| ==> !Contains(items[k].description, SectionMark)
  }

  lemma ItemsSnoc(rest: seq<Advice>, a: Advice)
    ensures AllTidy(rest) && Tidy(a) ==> AllTidy(rest + [a])
    ensures AllUnmarked(rest) && !Contains(a.description, SectionMark) ==> AllUnmarked(rest + [a])
  {
    assert forall k :: 0 <= k < |rest| ==> (rest + [a])[k] == rest[k];
    assert (rest + [a])[|rest|] == a;
  }

  /** Every parsed item is tidy, and when no section holds "##", no description does. */
  lemma {:induction false} SectionsAdviceTidy(sections: seq<string>)
    ensures AllTidy(SectionsAdvice(sections))
    ensures NoSectionMark(sections) ==> AllUnmarked(SectionsAdvice(sections))
    decreases |sections|
  {
    if |sections| > 0 {
      var init := sections[..|sections| - 1];
      var last := sections[|sections| - 1];
      SectionsAdviceTidy(init);
      SectionsAdviceLast(sections);
      NoSectionMarkInit(sections);
      var o := SectionAdvice(last);
      if o.Some? {
        SectionDescription(last);
        ItemsSnoc(SectionsAdvice(init), o.value);
      }
    }
  }

  lemma NoSectionMarkInit(sections: seq<string>)
    requires |sections| > 0
    ensures NoSectionMark(sections) ==>
      NoSectionMark(sections[..|sections| - 1]) && !Contains(sections[|sections| - 1], SectionMark)
  {
    var init := sections[..|sections| - 1];
    assert forall k :: 0 <= k < |init| ==> init[k] == sections[k];
  }

  /** Parsing one more section appends its item, if it has one. */
  lemma SectionsAdviceStep(sections: seq<string>, i: int)
    requires 0 <= i < |sections|
    ensures var a := SectionAdvice(sections[i]);
      SectionsAdvice(sections[..i + 1]) == SectionsAdvice(sections[..i]) + (if a.Some? then [a.value] else [])
  {
    assert sections[..i + 1][..i] == sections[..i];
  }

  /** What `get_gemini_report_advice` returns for a reply `raw`. */
  function AdviceOf(raw: string): (items: seq<Advice>)
    ensures |items| > 0
  {
    var parsed := SectionsAdvice(SplitOn(Strip(raw), SectionMark));
    if |parsed| > 0 then parsed else [Advice(FallbackTitle, raw)]
  }

  /** The parse loop of `get_gemini_report_advice`. */
  method ParseAdvice(raw: string) returns (items: seq<Advice>)
    ensures items == AdviceOf(raw)
  {
    var parts := ParseSections(SplitOn(Strip(raw), SectionMark));
    if |parts| > 0 {
      items := parts;
    } else {
      items := [Advice(FallbackTitle, raw)];
    }
  }

  /** The loop over the "##" sections, keeping the item of each section that has one. */
  method ParseSections(sections: seq<string>) returns (parts: seq<Advice>)
    ensures parts == SectionsAdvice(sections)
  {
    parts := [];
    for i := 0 to |sections|
      invariant parts == SectionsAdvice(sections[..i])
    {
      var item := ParseSection(sections[i]);
      SectionsAdviceStep(sections, i);
      parts := parts + (if item.Some? then [item.value] else []);
    }
    assert sections[..|sections|] == sections;
  }

  /** The body of the parse loop for one section. */
  method ParseSection(section: string) returns (item: Option<Advice>)
    ensures item == SectionAdvice(section)
  {
    SectionAdviceAt(section);
    var mark := IndexOf(section, TitleMark);
    if mark.None? {
      return None;
    }
    var title := Strip(RemoveAll(section[..mark.value], Bold));
    var description := Strip(section[mark.value + |TitleMark|..]);
    item := Some(Advice(title, description));
  }

  /** The reply falls back to one "AI Advice" item holding it whole exactly when none of its
      "##" sections holds ":**"; otherwise every item has a stripped title free of "**" and
      a stripped description free of "##". */
  lemma AdviceMeaning(raw: string)
    ensures var sections := SplitOn(Strip(raw), SectionMark);
      !AnyTitled(sections) ==> AdviceOf(raw) == [Advice(FallbackTitle, raw)]
    ensures var sections := SplitOn(Strip(raw), SectionMark);
      AnyTitled(sections) ==> AllTidy(AdviceOf(raw)) && AllUnmarked(AdviceOf(raw))
  {
    var sections := SplitOn(Strip(raw), SectionMark);
    assert NoSectionMark(sections);
    SectionsAdviceTidy(sections);
  }

  /** The ordinal suffix `get_specific_report` puts after a day of the month. */
  function DaySuffix(day: int): string
    requires 1 <= day <= 31
  {
    if 4 <= day <= 20 || 24 <= day <= 30 then "th" else ["st", "nd", "rd"][day % 10 - 1]
  }

  /** The English ordinal suffix of any positive number: "th" for 11 to 13 modulo 100,
      otherwise "st", "nd" or "rd" after a last digit 1, 2 or 3, and "th" after any other. */
  function OrdinalSuffix(n: nat): string {
    if 11 <= n % 100 <= 13 then "th"
    else if n % 10 == 1 then "st"
    else if n % 10 == 2 then "nd"
    else if n % 10 == 3 then "rd"
    else "th"
  }

  /** Every day of a month gets its English ordinal suffix. */
  lemma DaySuffixIsOrdinal(day: int)
    requires 1 <= day <= 31
    ensures DaySuffix(day) == OrdinalSuffix(day)
  {
    if day < 10 {
      assert day % 10 == day && day % 100 == day;
    } else if day < 20 {
      assert day % 10 == day - 10 && day % 100 == day;
    } else if day < 30 {
      assert day % 10 == day - 20 && day % 100 == day;
    } else {
      assert day % 10 == day - 30 && day % 100 == day;
    }
  }

  /** The soil type `get_crop_recommendations` searches for: "clay" when the lowered
      prediction (or "unknown") mentions clay, else its first space-separated word. */
  function SoilSearchTerm(prediction: Option<string>): (term: string)
    ensures var p := Lower(prediction.GetOr("unknown"));
      && Contains(p, term)
      && (Contains(p, "clay") ==> term == "clay")
      && (!Contains(p, "clay") ==> !Contains(term, " ") && (p == term || exists rest :: p == term + " " + rest))
  {
    var p := Lower(prediction.GetOr("unknown"));
    if Contains(p, "clay") then "clay"
    else
      var term := SplitOn(p, " ")[0];
      match IndexOf(p, " ")
      case None =>
        assert term == p;
        assert p[0..|p|] == p;
        OccursContains(p, p, 0);
        term
      case Some(i) =>
        assert term == p[..i];
        AroundSpace(p, i);
        PrefixContains(term, " " + p[i + 1..]);
        term
  }

  /** A string is the text before a space, the space, and the text after it. */
  lemma AroundSpace(p: string, i: int)
    requires OccursAt(p, " ", i)
    ensures p == p[..i] + " " + p[i + 1..]
  {
    assert p[i..i + 1] == " ";
    assert p == p[..i] + p[i..i + 1] + p[i + 1..];
  }

  /** `[c for c in recs if c.lower() != last_crop.lower()]`. */
  function DropCrop(recs: seq<string>, lastCrop: string): (kept: seq<string>)
    ensures |kept| <= |recs|
    ensures forall c :: c in kept <==> c in recs && Lower(c) != Lower(lastCrop)
    decreases |recs|
  {
    if |recs| == 0 then []
    else
      var c := recs[|recs| - 1];
      var init := recs[..|recs| - 1];
      assert recs == init + [c];
      DropCrop(init, lastCrop) + (if Lower(c) != Lower(lastCrop) then [c] else [])
  }

  /** The crops the cap applies to: the recommendations without the last crop when one is
      given, or all of them when that leaves nothing. */
  function Chosen(recs: seq<string>, lastCrop: string): seq<string> {
    var kept := if lastCrop != "" then DropCrop(recs, lastCrop) else recs;
    if |kept| > 0 then kept else recs
  }

  /** The recommendations `get_crop_recommendations` returns: the first five chosen crops in
      rank order (all of them when fewer), each capitalized, so each lowers like the chosen
      crop at its rank. */
  function FinalCrops(recs: seq<string>, lastCrop: string): (crops: seq<string>)
    ensures var chosen := Chosen(recs, lastCrop);
      && |crops| == (if |chosen| < 5 then |chosen| else 5)
      && forall k :: 0 <= k < |crops| ==> Lower(crops[k]) == Lower(chosen[k])
    ensures |crops| <= 5 && |crops| <= |recs|
    ensures |recs| > 0 ==> |crops| > 0
  {
    var chosen := Chosen(recs, lastCrop);
    var n := if |chosen| < 5 then |chosen| else 5;
    var crops := seq(n, i requires 0 <= i < n => Capitalize(chosen[i]));
    assert forall k :: 0 <= k < n ==> Lower(crops[k]) == Lower(chosen[k]) by {
      forall k | 0 <= k < n ensures Lower(crops[k]) == Lower(chosen[k]) {
        LowerCapitalize(chosen[k]);
      }
    }
    crops
  }

  /** `kept` lists, in their order in `recs`, exactly the recommendations at the indices `idx`. */
  ghost predicate InOrderAt(kept: seq<string>, recs: seq<string>, idx: seq<int>) {
    && |idx| == |kept|
    && (forall k :: 0 <= k < |idx| ==> 0 <= idx[k] < |recs| && kept[k] == recs[idx[k]])
    && (forall k, l :: 0 <= k < l < |idx| ==> idx[k] < idx[l])
  }

  /** Dropping the last crop keeps the other recommendations in their rank order, every
      one of them. */
  lemma {:induction false} DropCropKeepsOrder(recs: seq<string>, lastCrop: string) returns (idx: seq<int>)
    ensures InOrderAt(DropCrop(recs, lastCrop), recs, idx)
    ensures forall i :: 0 <= i < |recs| && Lower(recs[i]) != Lower(lastCrop) ==> i in idx
    decreases |recs|
  {
    if |recs| == 0 {
      idx := [];
    } else {
      var init := recs[..|recs| - 1];
      var c := recs[|recs| - 1];
      var before := DropCropKeepsOrder(init, lastCrop);
      var keep := Lower(c) != Lower(lastCrop);
      idx := if keep then before + [|init|] else before;
      assert recs == init + [c];
      InOrderSnoc(DropCrop(init, lastCrop), init, before, c, keep);
      KeptSnoc(recs, init, c, lastCrop, before, keep, idx);
    }
  }

  /** Every kept recommendation of `init`, and `c` when kept, has its index in `idx`. */
  lemma KeptSnoc(recs: seq<string>, init: seq<string>, c: string, lastCrop: string,
                 before: seq<int>, keep: bool, idx: seq<int>)
    requires recs == init + [c]
    requires keep == (Lower(c) != Lower(lastCrop))
    requires idx == if keep then before + [|init|] else before
    requires forall i :: 0 <= i < |init| && Lower(init[i]) != Lower(lastCrop) ==> i in before
    ensures forall i :: 0 <= i < |recs| && Lower(recs[i]) != Lower(lastCrop) ==> i in idx
  {
    forall i | 0 <= i < |recs| && Lower(recs[i]) != Lower(lastCrop)
      ensures i in idx
    {
      if i < |init| {
        assert recs[i] == init[i];
        assert i in before;
      } else {
        assert idx[|idx| - 1] == i;
      }
    }
  }

  /** Appending a recommendation, and keeping it or not, keeps the order. */
  lemma InOrderSnoc(kept: seq<string>, init: seq<string>, idx: seq<int>, c: string, keep: bool)
    requires InOrderAt(kept, init, idx)
    ensures InOrderAt(kept + (if keep then [c] else []), init + [c], if keep then idx + [|init|] else idx)
  {
    var recs := init + [c];
    assert forall k :: 0 <= k < |idx| ==> recs[idx[k]] == init[idx[k]];
  }

  /** `x` is one of `recs` capitalized, and so lowers like it. */
  predicate CapitalizedFrom(x: string, recs: seq<string>) {
    exists c :: c in recs && x == Capitalize(c) && Lower(x) == Lower(c)
  }

  /** A given last crop is never recommended again unless every recommendation is that crop;
      every recommended crop is a recommendation capitalized, and then lowers like it. */
  lemma FinalCropsMeaning(recs: seq<string>, lastCrop: string)
    ensures forall k :: 0 <= k < |FinalCrops(recs, lastCrop)| ==> CapitalizedFrom(FinalCrops(recs, lastCrop)[k], recs)
    ensures lastCrop != "" && (exists c :: c in recs && Lower(c) != Lower(lastCrop)) ==>
      forall k :: 0 <= k < |FinalCrops(recs, lastCrop)| ==> Lower(FinalCrops(recs, lastCrop)[k]) != Lower(lastCrop)
  {
    var kept := if lastCrop != "" then DropCrop(recs, lastCrop) else recs;
    var chosen := Chosen(recs, lastCrop);
    var crops := FinalCrops(recs, lastCrop);
    forall k | 0 <= k < |crops|
      ensures Lower(crops[k]) == Lower(chosen[k]) && CapitalizedFrom(crops[k], recs)
    {
      LowerCapitalize(chosen[k]);
      assert chosen[k] in recs && crops[k] == Capitalize(chosen[k]);
    }
    if lastCrop != "" && (exists c :: c in recs && Lower(c) != Lower(lastCrop)) {
      var c :| c in recs && Lower(c) != Lower(lastCrop);
      assert c in kept;
      forall k | 0 <= k < |crops|
        ensures Lower(crops[k]) != Lower(lastCrop)
      {
        assert chosen[k] in kept;
      }
    }
  }
}
