/** The pure string work of app.js: the hero and line search filters,
    resolving a clip path against the wiki host, and cleaning a quote for
    display in the quiz. */
module Search {
  import opened Seqs
  import opened Text
  import opened Dataset

  // ------------------------------------------------------------ filters

  /** A hero matches a query when its lower-cased name contains the
      lower-cased query (`h.hero.toLowerCase().includes(query)`). */
  predicate HeroMatches(h: HeroRecord, query: String)
  {
    Contains(Lower(h.hero), Lower(query))
  }

  predicate LineMatches(l: Line, query: String)
  {
    Contains(Lower(l.text), Lower(query))
  }

  /** `HeroMatches` as the callback handed to `filter`. */
  function Matching(query: String): HeroRecord -> bool
  {
    h => HeroMatches(h, query)
  }

  /** The hero search box: the matching heroes, in list order. */
  function FilterHeroes(heroes: seq<HeroRecord>, query: String): (r: seq<HeroRecord>)
    ensures forall h :: h in r <==> h in heroes && HeroMatches(h, query)
    ensures IsSubsequence(r, heroes)
    ensures forall h :: h in heroes ==> multiset(r)[h] == if HeroMatches(h, query) then multiset(heroes)[h] else 0
  {
    FilterMembers(heroes, Matching(query));
    FilterCounts(heroes, Matching(query));
    Filter(heroes, Matching(query))
  }

  /** The line search box: the lines of the shown hero whose text matches. */
  function FilterLines(lines: seq<Line>, query: String): (r: seq<Line>)
    ensures forall l :: l in r <==> l in lines && LineMatches(l, query)
    ensures IsSubsequence(r, lines)
    ensures forall l :: l in lines ==> multiset(r)[l] == if LineMatches(l, query) then multiset(lines)[l] else 0
  {
    FilterMembers(lines, l => LineMatches(l, query));
    FilterCounts(lines, l => LineMatches(l, query));
    Filter(lines, l => LineMatches(l, query))
  }

  /** An empty search box shows every hero. */
  lemma EmptyQueryShowsAllHeroes(heroes: seq<HeroRecord>)
    ensures FilterHeroes(heroes, []) == heroes
  {
    forall i | 0 <= i < |heroes|
      ensures HeroMatches(heroes[i], [])
    {
      ContainsEmpty(Lower(heroes[i].hero));
    }
    FilterKeepsAll(heroes, Matching([]));
  }

  /** An empty search box shows every line. */
  lemma EmptyQueryShowsAllLines(lines: seq<Line>)
    ensures FilterLines(lines, []) == lines
  {
    forall i | 0 <= i < |lines|
      ensures LineMatches(lines[i], [])
    {
      ContainsEmpty(Lower(lines[i].text));
    }
    FilterKeepsAll(lines, l => LineMatches(l, []));
  }

  /** Typing more characters only narrows the hero list. */
  lemma TypingNarrowsHeroes(heroes: seq<HeroRecord>, query: String, more: String)
    ensures forall h :: h in FilterHeroes(heroes, query + more) ==> h in FilterHeroes(heroes, query)
  {
    LowerAppend(query, more);
    forall h | h in FilterHeroes(heroes, query + more)
      ensures HeroMatches(h, query)
    {
      ContainsPrefixOf(Lower(h.hero), Lower(query), Lower(more));
    }
  }

  // ---------------------------------------------------------- audio URL

  /** The wiki host that clip paths beginning with `/` are relative to. */
  const WikiHost: String := "https://dota2.fandom.com"

  /** `if (audioSrc && audioSrc.startsWith('/')) audioSrc = host + audioSrc`:
      the source is changed exactly when it is host-relative, and then it is
      the host followed by the source; the result is never host-relative. */
  function ResolveAudio(src: String): (r: String)
    ensures r != src <==> StartsWith(src, "/")
    ensures EndsWith(r, src)
    ensures StartsWith(src, "/") ==> StartsWith(r, WikiHost) && |r| == |WikiHost| + |src|
    ensures !StartsWith(r, "/")
  {
    if src != [] && StartsWith(src, "/") then
      var r := WikiHost + src;
      assert r[0] == 'h';
      assert r[..|WikiHost|] == WikiHost;
      r
    else src
  }

  /** Resolving twice is resolving once. */
  lemma ResolveAudioIdempotent(src: String)
    ensures ResolveAudio(ResolveAudio(src)) == ResolveAudio(src)
  {
  }

  // ------------------------------------------------------ quote display

  /** The letters `/\b[ru]\b/gi` looks for. */
  predicate IsRu(c: char)
  {
    c == 'r' || c == 'u' || c == 'R' || c == 'U'
  }

  /** `replace(/\b[ru]\b/gi, '')`.  `prevWord` says whether the character
      before `s` in the original text is a word character; an r or u is
      dropped when neither neighbour in the original text is one. */
  function DropRu(s: String, prevWord: bool): (r: String)
    ensures |r| <= |s|
    ensures s != [] && (prevWord || !IsRu(s[0])) ==> r != [] && r[0] == s[0]
    decreases |s|
  {
    if s == [] then []
    else
      var standalone := IsRu(s[0]) && !prevWord && !(|s| > 1 && IsWordChar(s[1]));
      var rest := DropRu(s[1..], IsWordChar(s[0]));
      if standalone then rest else [s[0]] + rest
  }

  /** The r or u at position `k` of `r` (if it is one) has a word character
      on at least one side; `prevWord` stands for what comes before `r`. */
  predicate RuOk(r: String, k: int, prevWord: bool)
    requires 0 <= k < |r|
  {
    !IsRu(r[k])
    || (if k == 0 then prevWord else IsWordChar(r[k - 1]))
    || (k + 1 < |r| && IsWordChar(r[k + 1]))
  }

  /** No r or u in `r` stands alone between non-word characters. */
  predicate NoStandaloneRu(r: String, prevWord: bool)
  {
    forall k :: 0 <= k < |r| ==> RuOk(r, k, prevWord)
  }

  /** Positions `k` and `k + 1` of `r` both hold whitespace. */
  predicate SpacePair(r: String, k: int)
    requires 0 <= k < |r| - 1
  {
    IsSpace(r[k]) && IsSpace(r[k + 1])
  }

  /** No two whitespace characters are adjacent. */
  predicate NoDoubleSpace(r: String)
  {
    forall k :: 0 <= k < |r| - 1 ==> !SpacePair(r, k)
  }

  /** Putting `c` in front keeps the property unless `c` and the old first
      character are both whitespace. */
  lemma NoDoubleSpaceCons(c: char, r: String)
    requires NoDoubleSpace(r)
    requires r == [] || !IsSpace(c) || !IsSpace(r[0])
    ensures NoDoubleSpace([c] + r)
  {
    var u := [c] + r;
    forall k | 0 <= k < |u| - 1
      ensures !SpacePair(u, k)
    {
      if k > 0 {
        assert !SpacePair(r, k - 1);
        assert u[k] == r[k - 1] && u[k + 1] == r[k];
      }
    }
  }

  /** The context before the first character only matters if it is r or u. */
  lemma NoStandaloneRuContext(r: String, a: bool, b: bool)
    requires NoStandaloneRu(r, a) && (r == [] || !IsRu(r[0]) || b)
    ensures NoStandaloneRu(r, b)
  {
    forall k | 0 <= k < |r|
      ensures RuOk(r, k, b)
    {
      assert RuOk(r, k, a);
    }
  }

  /** Dropping the first character: the rest sees that character as context. */
  lemma NoStandaloneRuTail(s: String, pw: bool)
    requires s != [] && NoStandaloneRu(s, pw)
    ensures NoStandaloneRu(s[1..], IsWordChar(s[0]))
  {
    var t := s[1..];
    forall k | 0 <= k < |t|
      ensures RuOk(t, k, IsWordChar(s[0]))
    {
      assert RuOk(s, k + 1, pw);
      assert t[k] == s[k + 1];
      if k > 0 {
        assert t[k - 1] == s[k];
      }
      if k + 1 < |t| {
        assert t[k + 1] == s[k + 2];
      }
    }
  }

  /** Prepending a character keeps the property when that character cannot
      leave an r or u standing alone. */
  lemma NoStandaloneRuCons(c: char, t: String, pw: bool)
    requires NoStandaloneRu(t, IsWordChar(c))
    requires IsRu(c) ==> pw || (t != [] && IsWordChar(t[0]))
    ensures NoStandaloneRu([c] + t, pw)
  {
    var r := [c] + t;
    forall k | 0 <= k < |r|
      ensures RuOk(r, k, pw)
    {
      if k > 0 {
        assert RuOk(t, k - 1, IsWordChar(c));
        assert r[k] == t[k - 1];
        assert r[k - 1] == if k == 1 then c else t[k - 2];
        if k + 1 < |r| {
          assert r[k + 1] == t[k];
        }
      } else if |r| > 1 {
        assert r[1] == t[0];
      }
    }
  }

  predicate NotRu(c: char) { !IsRu(c) }

  /** What `/\b[ru]\b/gi` removes, read on the original text: the characters
      of `s` from position `i` on, except each r or u that has no word
      character on either side. */
  function KeepNotStandalone(s: String, prevWord: bool, i: nat): (r: String)
    requires i <= |s|
    ensures |r| <= |s| - i
    decreases |s| - i
  {
    if i == |s| then []
    else (if RuOk(s, i, prevWord) then [s[i]] else []) + KeepNotStandalone(s, prevWord, i + 1)
  }

  lemma RuOkShift(s: String, pw: bool, k: int)
    requires 1 <= k < |s|
    ensures RuOk(s, k, pw) == RuOk(s[1..], k - 1, IsWordChar(s[0]))
  {
    assert s[1..][k - 1] == s[k];
    if k > 1 {
      assert s[1..][k - 2] == s[k - 1];
    }
    if k + 1 < |s| {
      assert s[1..][k] == s[k + 1];
    }
  }

  lemma {:induction false} KeepNotStandaloneShift(s: String, pw: bool, i: nat)
    requires 1 <= i <= |s|
    ensures KeepNotStandalone(s, pw, i) == KeepNotStandalone(s[1..], IsWordChar(s[0]), i - 1)
    decreases |s| - i
  {
    if i < |s| {
      RuOkShift(s, pw, i);
      KeepNotStandaloneShift(s, pw, i + 1);
    }
  }

  /** The r/u pass removes exactly the standalone r and u of the original
      text, and keeps every other character in order. */
  lemma {:induction false} DropRuExact(s: String, pw: bool)
    ensures DropRu(s, pw) == KeepNotStandalone(s, pw, 0)
    decreases |s|
  {
    if s != [] {
      DropRuExact(s[1..], IsWordChar(s[0]));
      KeepNotStandaloneShift(s, pw, 1);
    }
  }

  /** The r/u pass keeps every character that is not an r or u, in order. */
  lemma {:induction false} DropRuKeepsOthers(s: String, pw: bool)
    ensures Filter(DropRu(s, pw), NotRu) == Filter(s, NotRu)
    decreases |s|
  {
    if s != [] {
      var rest := DropRu(s[1..], IsWordChar(s[0]));
      DropRuKeepsOthers(s[1..], IsWordChar(s[0]));
      FilterCons(s[0], rest, NotRu);
    }
  }

  /** A text with no standalone r or u goes through the r/u pass unchanged. */
  lemma {:induction false} DropRuKeepsClean(s: String, pw: bool)
    requires NoStandaloneRu(s, pw)
    ensures DropRu(s, pw) == s
    decreases |s|
  {
    if s != [] {
      assert RuOk(s, 0, pw);
      NoStandaloneRuTail(s, pw);
      DropRuKeepsClean(s[1..], IsWordChar(s[0]));
      assert s == [s[0]] + s[1..];
    }
  }

  /** After the r/u pass, no r or u stands alone any more. */
  lemma {:induction false} DropRuLeavesNone(s: String, pw: bool)
    ensures NoStandaloneRu(DropRu(s, pw), pw)
    decreases |s|
  {
    if s != [] {
      var c := s[0];
      var rest := DropRu(s[1..], IsWordChar(c));
      DropRuLeavesNone(s[1..], IsWordChar(c));
      if IsRu(c) && !pw && !(|s| > 1 && IsWordChar(s[1])) {
        NoStandaloneRuContext(rest, IsWordChar(c), pw);
      } else {
        NoStandaloneRuCons(c, rest, pw);
      }
    }
  }

  /** `replace(/\s{2,}/g, ' ')`: each run of two or more whitespace
      characters becomes one space; a lone whitespace character stays. */
  function Collapse(s: String): (r: String)
    ensures r == [] <==> s == []
    ensures s != [] && !IsSpace(s[0]) ==> r[0] == s[0]
    ensures s != [] && IsSpace(s[0]) ==> IsSpace(r[0])
    ensures NoDoubleSpace(r)
    decreases |s|
  {
    if s == [] then []
    else if IsSpace(s[0]) && |s| >= 2 && IsSpace(s[1]) then
      var rest := Collapse(TrimStart(s));
      assert rest == [] || !IsSpace(rest[0]);
      NoDoubleSpaceCons(' ', rest);
      [' '] + rest
    else
      var rest := Collapse(s[1..]);
      assert rest == [] || !IsSpace(s[0]) || !IsSpace(rest[0]);
      NoDoubleSpaceCons(s[0], rest);
      [s[0]] + rest
  }

  /** Collapsing whitespace keeps every other character, in order. */
  lemma {:induction false} CollapseKeepsText(s: String)
    ensures Filter(Collapse(s), NotSpace) == Filter(s, NotSpace)
    decreases |s|
  {
    if s != [] {
      if IsSpace(s[0]) && |s| >= 2 && IsSpace(s[1]) {
        var t := TrimStart(s);
        assert t == TrimStart(s[1..]);
        CollapseKeepsText(t);
        TrimStartKeeps(s, NotSpace);
        FilterCons(' ', Collapse(t), NotSpace);
      } else {
        CollapseKeepsText(s[1..]);
        FilterCons(s[0], Collapse(s[1..]), NotSpace);
      }
    }
  }

  /** Collapsing keeps the pieces of `split(/\s+/)`: the words, and a break
      wherever there was one; only the runs between them shrink. */
  lemma {:induction false} CollapseKeepsWords(s: String)
    ensures SplitWs(Collapse(s)) == SplitWs(s)
    decreases |s|
  {
    if s != [] {
      if IsSpace(s[0]) && |s| >= 2 && IsSpace(s[1]) {
        var t := TrimStart(s);
        assert t == TrimStart(s[1..]);
        var c := Collapse(t);
        CollapseKeepsWords(t);
        TrimStartNonSpace(c);
        assert ([' '] + c)[1..] == c;
      } else if IsSpace(s[0]) {
        var c := Collapse(s[1..]);
        CollapseKeepsWords(s[1..]);
        TrimStartNonSpace(c);
        TrimStartNonSpace(s[1..]);
        assert ([s[0]] + c)[1..] == c;
      } else {
        CollapseKeepsWords(s[1..]);
        assert ([s[0]] + Collapse(s[1..]))[1..] == Collapse(s[1..]);
      }
    }
  }

  /** A whitespace-only text collapses to a whitespace-only text. */
  lemma CollapseAllSpace(w: String)
    requires AllSpace(w)
    ensures AllSpace(Collapse(w))
  {
    if |w| >= 2 {
      assert IsSpace(w[0]) && IsSpace(w[1]);
      TrimStartAllSpace(w);
    }
  }

  /** A text ending in a non-space collapses to one ending in the same character. */
  lemma {:induction false} CollapseLast(p: String)
    requires p != [] && !IsSpace(p[|p| - 1])
    ensures Collapse(p) != [] && Collapse(p)[|Collapse(p)| - 1] == p[|p| - 1]
    decreases |p|
  {
    if IsSpace(p[0]) && |p| >= 2 && IsSpace(p[1]) {
      var t := TrimStart(p);
      assert t == TrimStart(p[1..]);
      TrimStartKeepsEnd(p);
      CollapseLast(t);
    } else if |p| >= 2 {
      CollapseLast(p[1..]);
    }
  }

  /** No run crosses the end of a text that ends in a non-space, so the two
      sides collapse separately. */
  lemma {:induction false} CollapseAppend(p: String, w: String)
    requires p == [] || !IsSpace(p[|p| - 1])
    ensures Collapse(p + w) == Collapse(p) + Collapse(w)
    decreases |p|
  {
    if p == [] {
      assert p + w == w;
    } else if IsSpace(p[0]) && |p| >= 2 && IsSpace(p[1]) {
      var t := TrimStart(p);
      TrimStartKeepsEnd(p);
      CollapseAppend(t, w);
      CollapseAppendRun(p, w, t);
    } else {
      var q := p[1..];
      CollapseAppend(q, w);
      CollapseAppendCons(p, w, q);
    }
  }

  lemma CollapseAppendRun(p: String, w: String, t: String)
    requires |p| >= 2 && IsSpace(p[0]) && IsSpace(p[1]) && !IsSpace(p[|p| - 1])
    requires t == TrimStart(p)
    requires Collapse(t + w) == Collapse(t) + Collapse(w)
    ensures Collapse(p + w) == Collapse(p) + Collapse(w)
  {
    var s := p + w;
    assert s[0] == p[0] && s[1] == p[1];
    CollapseRunStep(s);
    CollapseRunStep(p);
    TrimStartAppend(p, w);
    ConsAppendAssoc(' ', Collapse(t), Collapse(w));
  }

  lemma CollapseAppendCons(p: String, w: String, q: String)
    requires p != [] && !IsSpace(p[|p| - 1]) && q == p[1..]
    requires !(IsSpace(p[0]) && |p| >= 2 && IsSpace(p[1]))
    requires Collapse(q + w) == Collapse(q) + Collapse(w)
    ensures Collapse(p + w) == Collapse(p) + Collapse(w)
  {
    var s := p + w;
    assert s[0] == p[0];
    if |p| >= 2 {
      assert s[1] == p[1];
    }
    TailOfAppend(p, w);
    CollapseConsStep(s);
    CollapseConsStep(p);
    ConsAppendAssoc(p[0], Collapse(q), Collapse(w));
  }

  lemma CollapseRunStep(s: String)
    requires |s| >= 2 && IsSpace(s[0]) && IsSpace(s[1])
    ensures Collapse(s) == [' '] + Collapse(TrimStart(s))
  {
  }

  lemma CollapseConsStep(s: String)
    requires s != [] && !(IsSpace(s[0]) && |s| >= 2 && IsSpace(s[1]))
    ensures Collapse(s) == [s[0]] + Collapse(s[1..])
  {
  }

  /** Collapsing and trimming can be done in either order. */
  lemma TrimCollapse(s: String)
    ensures Trim(Collapse(s)) == Collapse(Trim(s))
  {
    var u := TrimStart(s);
    TrimStartCollapse(s);
    TrimEndCollapse(u);
  }

  lemma TrimStartCollapse(s: String)
    ensures TrimStart(Collapse(s)) == Collapse(TrimStart(s))
  {
    if s != [] && IsSpace(s[0]) {
      if |s| >= 2 && IsSpace(s[1]) {
        var t := TrimStart(s);
        assert ([' '] + Collapse(t))[1..] == Collapse(t);
        TrimStartNonSpace(Collapse(t));
      } else {
        TrimStartNonSpace(s[1..]);
        assert ([s[0]] + Collapse(s[1..]))[1..] == Collapse(s[1..]);
        TrimStartNonSpace(Collapse(s[1..]));
      }
    } else {
      TrimStartNonSpace(Collapse(s));
    }
  }

  lemma TrimEndCollapse(s: String)
    ensures TrimEnd(Collapse(s)) == Collapse(TrimEnd(s))
  {
    var p := TrimEnd(s);
    var w := s[|p|..];
    TrimEndPrefix(s);
    assert s == p + w;
    CollapseAppend(p, w);
    CollapseAllSpace(w);
    if p != [] {
      CollapseLast(p);
    }
    TrimEndBeforeSpace(Collapse(p), Collapse(w));
  }

  /** A text without two whitespace characters in a row is left as it is. */
  lemma {:induction false} CollapseKeepsSingleSpaces(s: String)
    requires NoDoubleSpace(s)
    ensures Collapse(s) == s
    decreases |s|
  {
    if s != [] {
      if |s| >= 2 {
        assert !SpacePair(s, 0);
      }
      NoDoubleSpaceSlice(s, s[1..], 1);
      CollapseKeepsSingleSpaces(s[1..]);
      assert s == [s[0]] + s[1..];
    }
  }

  /** Skipping leading whitespace keeps the property, with nothing word-like before. */
  lemma {:induction false} NoStandaloneRuTrimStart(s: String, pw: bool)
    requires NoStandaloneRu(s, pw)
    requires s != [] && IsSpace(s[0])
    ensures NoStandaloneRu(TrimStart(s), false)
    decreases |s|
  {
    NoStandaloneRuTail(s, pw);
    assert TrimStart(s) == TrimStart(s[1..]);
    if |s| > 1 && IsSpace(s[1]) {
      NoStandaloneRuTrimStart(s[1..], false);
    } else {
      assert TrimStart(s[1..]) == s[1..];
    }
  }

  /** Collapsing whitespace never leaves an r or u alone. */
  lemma {:induction false} CollapseKeepsNoStandaloneRu(s: String, pw: bool)
    requires NoStandaloneRu(s, pw)
    ensures NoStandaloneRu(Collapse(s), pw)
    decreases |s|
  {
    if s != [] {
      if IsSpace(s[0]) && |s| >= 2 && IsSpace(s[1]) {
        NoStandaloneRuTrimStart(s, pw);
        CollapseKeepsNoStandaloneRu(TrimStart(s), false);
        NoStandaloneRuCons(' ', Collapse(TrimStart(s)), pw);
      } else {
        NoStandaloneRuTail(s, pw);
        assert RuOk(s, 0, pw);
        CollapseKeepsNoStandaloneRu(s[1..], IsWordChar(s[0]));
        NoStandaloneRuCons(s[0], Collapse(s[1..]), pw);
      }
    }
  }

  /** Cutting a string before a non-word character keeps the property. */
  lemma NoStandaloneRuPrefix(t: String, n: nat)
    requires NoStandaloneRu(t, false)
    requires n <= |t| && (n == |t| || !IsWordChar(t[n]))
    ensures NoStandaloneRu(t[..n], false)
  {
    var u := t[..n];
    forall k | 0 <= k < |u|
      ensures RuOk(u, k, false)
    {
      assert RuOk(t, k, false);
      assert u[k] == t[k];
      if k > 0 {
        assert u[k - 1] == t[k - 1];
      }
      if k + 1 < |u| {
        assert u[k + 1] == t[k + 1];
      }
    }
  }

  /** A run of consecutive characters of a text keeps the property. */
  lemma NoDoubleSpaceSlice(s: String, r: String, i: nat)
    requires NoDoubleSpace(s) && i + |r| <= |s| && r == s[i..i + |r|]
    ensures NoDoubleSpace(r)
  {
    forall k | 0 <= k < |r| - 1
      ensures !SpacePair(r, k)
    {
      assert !SpacePair(s, i + k);
      assert r[k] == s[i + k] && r[k + 1] == s[i + k + 1];
    }
  }

  /** Trimming keeps both display properties. */
  lemma TrimKeepsDisplay(s: String)
    requires NoStandaloneRu(s, false) && NoDoubleSpace(s)
    ensures NoStandaloneRu(Trim(s), false) && NoDoubleSpace(Trim(s))
  {
    TrimKeepsNoStandaloneRu(s);
    TrimKeepsNoDoubleSpace(s);
  }

  lemma TrimKeepsNoStandaloneRu(s: String)
    requires NoStandaloneRu(s, false)
    ensures NoStandaloneRu(Trim(s), false)
  {
    var t := TrimStart(s);
    if s != [] && IsSpace(s[0]) {
      NoStandaloneRuTrimStart(s, false);
    }
    var u := TrimEnd(t);
    TrimEndPrefix(t);
    if |u| < |t| {
      assert IsSpace(t[|u|]);
    }
    NoStandaloneRuPrefix(t, |u|);
  }

  lemma TrimKeepsNoDoubleSpace(s: String)
    requires NoDoubleSpace(s)
    ensures NoDoubleSpace(Trim(s))
  {
    TrimIsSlice(s);
    NoDoubleSpaceSlice(s, Trim(s), |s| - |TrimStart(s)|);
  }

  /** The characters that the display cleaning never touches. */
  predicate Visible(c: char) { !IsSpace(c) && !IsRu(c) }

  /** The quiz's `displayQuote`: standalone r/u removed, whitespace runs
      collapsed, trimmed.  What is shown has no whitespace at either end,
      never two whitespace characters in a row, and no standalone r or u;
      every character other than whitespace, r and u is still there, in order. */
  function CleanQuote(text: String): (r: String)
    ensures Trimmed(r)
    ensures NoDoubleSpace(r)
    ensures NoStandaloneRu(r, false)
    ensures Filter(r, Visible) == Filter(text, Visible)
    ensures Filter(r, NotSpace) == Filter(DropRu(text, false), NotSpace)
    ensures SplitWs(r) == SplitWs(Trim(DropRu(text, false)))
  {
    var stripped := DropRu(text, false);
    DropRuLeavesNone(text, false);
    var collapsed := Collapse(stripped);
    CollapseKeepsNoStandaloneRu(stripped, false);
    TrimKeepsDisplay(collapsed);
    CleanQuoteKeepsVisible(text, stripped, collapsed);
    CleanQuoteKeepsWords(stripped, collapsed);
    Trim(collapsed)
  }

  /** After the r/u are gone, collapsing and trimming keep every visible
      character and every word, with a single break wherever there was one. */
  lemma CleanQuoteKeepsWords(stripped: String, collapsed: String)
    requires collapsed == Collapse(stripped)
    ensures Filter(Trim(collapsed), NotSpace) == Filter(stripped, NotSpace)
    ensures SplitWs(Trim(collapsed)) == SplitWs(Trim(stripped))
  {
    CollapseKeepsText(stripped);
    TrimKeeps(collapsed, NotSpace);
    TrimCollapse(stripped);
    CollapseKeepsWords(Trim(stripped));
  }

  lemma CleanQuoteKeepsVisible(text: String, stripped: String, collapsed: String)
    requires stripped == DropRu(text, false) && collapsed == Collapse(stripped)
    ensures Filter(Trim(collapsed), Visible) == Filter(text, Visible)
  {
    DropRuKeepsOthers(text, false);
    FilterOfFilter(stripped, NotRu, Visible);
    FilterOfFilter(text, NotRu, Visible);
    CollapseKeepsText(stripped);
    FilterOfFilter(collapsed, NotSpace, Visible);
    FilterOfFilter(stripped, NotSpace, Visible);
    TrimKeeps(collapsed, Visible);
  }

  /** A quote that is already clean is shown as it is. */
  lemma CleanQuoteKeepsClean(text: String)
    requires Trimmed(text) && NoDoubleSpace(text) && NoStandaloneRu(text, false)
    ensures CleanQuote(text) == text
  {
    DropRuKeepsClean(text, false);
    CollapseKeepsSingleSpaces(text);
    TrimTrimmed(text);
  }

  /** Cleaning a cleaned quote changes nothing. */
  lemma CleanQuoteIdempotent(text: String)
    ensures CleanQuote(CleanQuote(text)) == CleanQuote(text)
  {
    CleanQuoteKeepsClean(CleanQuote(text));
  }
}
