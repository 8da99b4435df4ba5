/** The JavaScript string operations the quiz and the scraper rely on,
    stated over `seq<char>`: `toLowerCase`, `trim`, `split(/\s+/)`,
    `includes`, `indexOf`, `startsWith` and literal `replace`. */
module Text {
  import opened Seqs

  type String = seq<char>

  /** The `\s` class of ECMAScript regular expressions, which is also the set
      `String.prototype.trim` removes: WhiteSpace and LineTerminator code points. */
  predicate IsSpace(c: char)
  {
    var n := c as int;
    (9 <= n <= 13) || n == 32 || n == 0xA0 || n == 0x1680 || (0x2000 <= n <= 0x200A)
    || n == 0x2028 || n == 0x2029 || n == 0x202F || n == 0x205F || n == 0x3000 || n == 0xFEFF
  }

  /** `\d` (without the `u` flag: ASCII digits only). */
  predicate IsDigit(c: char) { '0' <= c <= '9' }

  /** `\w`, the word characters that `\b` looks at (ASCII only without the `u` flag). */
  predicate IsWordChar(c: char)
  {
    ('a' <= c <= 'z') || ('A' <= c <= 'Z') || IsDigit(c) || c == '_'
  }

  /** `[a-z]` */
  predicate IsLowerLetter(c: char) { 'a' <= c <= 'z' }

  function LowerChar(c: char): (r: char)
    ensures IsLowerLetter(r) <==> ('a' <= c <= 'z' || 'A' <= c <= 'Z')
    ensures IsSpace(r) <==> IsSpace(c)
    ensures IsWordChar(r) <==> IsWordChar(c)
  {
    if 'A' <= c <= 'Z' then (c as int + 32) as char else c
  }

  /** `toLowerCase`, for the ASCII letters. */
  function Lower(s: String): (r: String)
    ensures |r| == |s|
    ensures forall i :: 0 <= i < |s| ==> r[i] == LowerChar(s[i])
  {
    seq(|s|, i requires 0 <= i < |s| => LowerChar(s[i]))
  }

  lemma LowerAppend(a: String, b: String)
    ensures Lower(a + b) == Lower(a) + Lower(b)
  {
  }

  /** `replace(/[^a-z]/g, '')` */
  function LettersOnly(s: String): (r: String)
    ensures forall i :: 0 <= i < |r| ==> IsLowerLetter(r[i])
    ensures IsSubsequence(r, s)
    ensures forall c :: c in s ==> multiset(r)[c] == if IsLowerLetter(c) then multiset(s)[c] else 0
  {
    FilterMembers(s, IsLowerLetter);
    FilterCounts(s, IsLowerLetter);
    Filter(s, IsLowerLetter)
  }

  predicate HasDigit(s: String)
  {
    exists i :: 0 <= i < |s| && IsDigit(s[i])
  }

  // ---------------------------------------------------------------- trim

  predicate Trimmed(s: String)
  {
    s == [] || (!IsSpace(s[0]) && !IsSpace(s[|s| - 1]))
  }

  predicate AllSpace(s: String)
  {
    forall i :: 0 <= i < |s| ==> IsSpace(s[i])
  }

  predicate NotSpace(c: char) { !IsSpace(c) }

  /** A filter that keeps no whitespace keeps nothing of a whitespace string. */
  lemma FilterAllSpace(s: String, q: char -> bool)
    requires AllSpace(s) && forall c :: q(c) ==> !IsSpace(c)
    ensures Filter(s, q) == []
  {
    FilterNone(s, q);
  }

  /** Drops the leading whitespace. */
  function TrimStart(s: String): (r: String)
    ensures |r| <= |s|
    ensures r == [] || !IsSpace(r[0])
    decreases |s|
  {
    if s != [] && IsSpace(s[0]) then TrimStart(s[1..]) else s
  }

  /** What `TrimStart` keeps is a suffix, and what it drops is whitespace. */
  lemma {:induction false} TrimStartSuffix(s: String)
    ensures TrimStart(s) == s[|s| - |TrimStart(s)|..]
    ensures AllSpace(s[..|s| - |TrimStart(s)|])
    decreases |s|
  {
    if s != [] && IsSpace(s[0]) {
      TrimStartSuffix(s[1..]);
      var r := TrimStart(s);
      var cut := |s| - |r|;
      assert s[1..][|s| - 1 - |r|..] == s[cut..];
      assert forall i :: 0 < i < cut ==> s[..cut][i] == s[1..][..cut - 1][i - 1];
    }
  }

  /** The input is the whitespace `TrimStart` drops followed by what it keeps. */
  lemma TrimStartSplit(s: String) returns (a: String)
    ensures AllSpace(a) && s == a + TrimStart(s)
  {
    TrimStartSuffix(s);
    a := s[..|s| - |TrimStart(s)|];
    assert s == s[..|a|] + s[|a|..];
  }

  /** Drops the trailing whitespace. */
  function TrimEnd(s: String): (r: String)
    ensures |r| <= |s|
    ensures r == [] || !IsSpace(r[|r| - 1])
    decreases |s|
  {
    if s != [] && IsSpace(s[|s| - 1]) then TrimEnd(s[..|s| - 1]) else s
  }

  /** What `TrimEnd` keeps is a prefix, and what it drops is whitespace. */
  lemma {:induction false} TrimEndPrefix(s: String)
    ensures TrimEnd(s) == s[..|TrimEnd(s)|]
    ensures AllSpace(s[|TrimEnd(s)|..])
    decreases |s|
  {
    if s != [] && IsSpace(s[|s| - 1]) {
      var init := s[..|s| - 1];
      TrimEndPrefix(init);
      var n := |TrimEnd(s)|;
      assert init[..n] == s[..n];
      assert s[n..] == init[n..] + [s[|s| - 1]];
    }
  }

  /** Trimming the front keeps every character a whitespace-free filter keeps. */
  lemma {:induction false} TrimStartKeeps(s: String, q: char -> bool)
    requires forall c :: q(c) ==> !IsSpace(c)
    ensures Filter(TrimStart(s), q) == Filter(s, q)
    decreases |s|
  {
    if s != [] && IsSpace(s[0]) {
      TrimStartKeeps(s[1..], q);
    }
  }

  /** Trimming the end keeps every character a whitespace-free filter keeps. */
  lemma TrimEndKeeps(s: String, q: char -> bool)
    requires forall c :: q(c) ==> !IsSpace(c)
    ensures Filter(TrimEnd(s), q) == Filter(s, q)
  {
    var t := TrimEnd(s);
    TrimEndPrefix(s);
    assert s == t + s[|t|..];
    FilterAppend(t, s[|t|..], q);
    FilterAllSpace(s[|t|..], q);
  }

  /** Trimming the front of a string that ends in a non-space keeps that
      last character. */
  lemma {:induction false} TrimStartKeepsEnd(s: String)
    requires s == [] || !IsSpace(s[|s| - 1])
    ensures s != [] ==> TrimStart(s) != [] && TrimStart(s)[|TrimStart(s)| - 1] == s[|s| - 1]
    decreases |s|
  {
    if s != [] && IsSpace(s[0]) {
      TrimStartKeepsEnd(s[1..]);
    }
  }

  /** Nothing is left of a string made only of whitespace. */
  lemma {:induction false} TrimStartAllSpace(s: String)
    requires AllSpace(s)
    ensures TrimStart(s) == []
    decreases |s|
  {
    if s != [] {
      TrimStartAllSpace(s[1..]);
    }
  }

  /** `String.prototype.trim`: no whitespace is left at either end. */
  function Trim(s: String): (r: String)
    ensures Trimmed(r)
  {
    var t := TrimStart(s);
    var r := TrimEnd(t);
    assert r == [] || !IsSpace(r[0]) by {
      if r != [] {
        TrimEndPrefix(t);
        assert r[0] == t[0];
      }
    }
    r
  }

  /** `trim` keeps the characters from the first one `trimStart` keeps on. */
  lemma TrimIsSlice(s: String)
    ensures |s| - |TrimStart(s)| + |Trim(s)| <= |s|
    ensures Trim(s) == s[|s| - |TrimStart(s)|..|s| - |TrimStart(s)| + |Trim(s)|]
  {
    var t := TrimStart(s);
    var r := TrimEnd(t);
    var i := |s| - |t|;
    TrimStartSuffix(s);
    TrimEndPrefix(t);
    PrefixOfSuffix(s, i, |r|);
  }

  /** What `trim` returns is a slice of its argument with only whitespace
      cut off at either end. */
  lemma TrimSlice(s: String)
    ensures exists i, j :: 0 <= i <= j <= |s| && Trim(s) == s[i..j] && AllSpace(s[..i]) && AllSpace(s[j..])
  {
    var t := TrimStart(s);
    var r := TrimEnd(t);
    var i := |s| - |t|;
    TrimIsSlice(s);
    TrimStartSuffix(s);
    TrimEndPrefix(t);
    assert AllSpace(s[i + |r|..]) by {
      assert s[i + |r|..] == t[|r|..];
    }
  }

  /** `trim` removes only whitespace: every other character stays, in order. */
  lemma TrimKeeps(s: String, q: char -> bool)
    requires forall c :: q(c) ==> !IsSpace(c)
    ensures Filter(Trim(s), q) == Filter(s, q)
  {
    TrimStartKeeps(s, q);
    TrimEndKeeps(TrimStart(s), q);
  }

  /** A string that does not start with whitespace is its own `TrimStart`. */
  lemma TrimStartNonSpace(s: String)
    requires s == [] || !IsSpace(s[0])
    ensures TrimStart(s) == s
  {
  }

  /** Whitespace in front of a text is all cut by `TrimStart`. */
  lemma {:induction false} TrimStartAfterSpace(g: String, t: String)
    requires AllSpace(g)
    ensures TrimStart(g + t) == TrimStart(t)
    decreases |g|
  {
    if g != [] {
      var u, h := g + t, g[1..];
      assert IsSpace(g[0]) && u[0] == g[0];
      assert u[1..] == h + t;
      assert TrimStart(u) == TrimStart(h + t);
      assert AllSpace(h);
      TrimStartAfterSpace(h, t);
    } else {
      assert g + t == t;
    }
  }

  /** `TrimStart` of a text whose last character is not whitespace only
      touches that text, whatever follows it. */
  lemma {:induction false} TrimStartAppend(p: String, w: String)
    requires p != [] && !IsSpace(p[|p| - 1])
    ensures TrimStart(p + w) == TrimStart(p) + w
    decreases |p|
  {
    assert (p + w)[0] == p[0];
    if IsSpace(p[0]) {
      assert (p + w)[1..] == p[1..] + w;
      TrimStartAppend(p[1..], w);
    }
  }

  /** `TrimEnd` of a part that ends in a non-space, followed by whitespace,
      is that part. */
  lemma {:induction false} TrimEndBeforeSpace(p: String, w: String)
    requires AllSpace(w) && (p == [] || !IsSpace(p[|p| - 1]))
    ensures TrimEnd(p + w) == p
    decreases |w|
  {
    if w == [] {
      assert p + w == p;
    } else {
      var s := p + w;
      assert s[|s| - 1] == w[|w| - 1];
      assert s[..|s| - 1] == p + w[..|w| - 1];
      TrimEndBeforeSpace(p, w[..|w| - 1]);
    }
  }

  /** Trimming a string that has no whitespace at either end changes nothing. */
  lemma TrimTrimmed(s: String)
    requires Trimmed(s)
    ensures Trim(s) == s
  {
  }

  // ------------------------------------------------------ split(/\s+/)

  /** The number of maximal whitespace runs in `s`; `afterSpace` says that
      `s` follows whitespace, so a run at its start continues that one. */
  function SpaceRuns(s: String, afterSpace: bool): nat
    decreases |s|
  {
    if s == [] then 0
    else (if IsSpace(s[0]) && !afterSpace then 1 else 0) + SpaceRuns(s[1..], IsSpace(s[0]))
  }

  /** The whitespace at the front of a string that follows whitespace starts no run. */
  lemma {:induction false} SpaceRunsTrimStart(s: String)
    ensures SpaceRuns(TrimStart(s), true) == SpaceRuns(s, true)
    decreases |s|
  {
    if s != [] && IsSpace(s[0]) {
      SpaceRunsTrimStart(s[1..]);
    }
  }

  /** `s.split(/\s+/)`: the pieces between maximal whitespace runs.  A
      leading or trailing run yields an empty first or last piece, and the
      empty string yields the single piece `""`, as in JavaScript.  There is
      one piece more than there are runs. */
  function SplitWs(s: String): (r: seq<String>)
    ensures |r| == 1 + SpaceRuns(s, false)
    decreases |s|
  {
    if s == [] then [[]]
    else if IsSpace(s[0]) then
      var t := TrimStart(s);
      SpaceRunsTrimStart(s[1..]);
      assert SpaceRuns(t, true) == SpaceRuns(t, false);
      [[]] + SplitWs(t)
    else
      var rest := SplitWs(s[1..]);
      [[s[0]] + rest[0]] + rest[1..]
  }

  /** The pieces of a split, put together, are the text without its whitespace. */
  lemma {:induction false} SplitWsJoin(s: String)
    ensures Flatten(SplitWs(s)) == Filter(s, NotSpace)
    decreases |s|
  {
    if s == [] {
    } else if IsSpace(s[0]) {
      var t := TrimStart(s);
      SplitWsJoin(t);
      TrimStartKeeps(s, NotSpace);
      FlattenCons([], SplitWs(t));
    } else {
      var rest := SplitWs(s[1..]);
      SplitWsJoin(s[1..]);
      FlattenExtendFirst(s[0], rest);
      assert SplitWs(s) == [[s[0]] + rest[0]] + rest[1..];
    }
  }

  predicate NoSpace(w: String)
  {
    forall i :: 0 <= i < |w| ==> !IsSpace(w[i])
  }

  /** Every piece of a split is free of whitespace. */
  lemma {:induction false} SplitWsPiecesHaveNoSpace(s: String)
    ensures forall k :: 0 <= k < |SplitWs(s)| ==> NoSpace(SplitWs(s)[k])
    decreases |s|
  {
    if s == [] {
    } else if IsSpace(s[0]) {
      SplitWsPiecesHaveNoSpace(TrimStart(s));
    } else {
      SplitWsPiecesHaveNoSpace(s[1..]);
    }
  }

  /** A word in front of a text that is empty or starts with whitespace
      joins that text's first piece. */
  lemma {:induction false} SplitWsWordFront(w: String, x: String)
    requires NoSpace(w) && (x == [] || IsSpace(x[0]))
    ensures SplitWs(w + x) == [w + SplitWs(x)[0]] + SplitWs(x)[1..]
    decreases |w|
  {
    var pieces := SplitWs(x);
    if w == [] {
      assert w + x == x;
      assert w + pieces[0] == pieces[0];
      assert pieces == [pieces[0]] + pieces[1..];
    } else {
      var s := w + x;
      assert s[0] == w[0];
      assert s[1..] == w[1..] + x;
      SplitWsWordFront(w[1..], x);
      assert [w[0]] + (w[1..] + pieces[0]) == w + pieces[0];
    }
  }

  /** A text without whitespace is a single piece. */
  lemma SplitWsWord(w: String)
    requires NoSpace(w)
    ensures SplitWs(w) == [w]
  {
    SplitWsWordFront(w, []);
    assert w + [] == w;
  }

  /** A whitespace run at the front gives an empty first piece; the pieces
      after it are those of the text after the run. */
  lemma SplitWsGapFirst(g: String, t: String)
    requires g != [] && AllSpace(g)
    ensures SplitWs(g + t) == [[]] + SplitWs(TrimStart(t))
  {
    assert (g + t)[0] == g[0];
    TrimStartAfterSpace(g, t);
  }

  /** A word, a whitespace run, then more text: the word is the first piece,
      and the pieces after it are those of the text after the run. */
  lemma SplitWsWordThenGap(w: String, g: String, t: String)
    requires NoSpace(w) && g != [] && AllSpace(g)
    ensures SplitWs(w + g + t) == [w] + SplitWs(TrimStart(t))
  {
    var x := g + t;
    SplitWsGapFirst(g, t);
    assert x[0] == g[0];
    SplitWsWordFront(w, x);
    assert w + g + t == w + x;
    assert w + [] == w;
  }

  /** Splitting a string that starts with a non-space yields a first piece
      that starts with it. */
  lemma SplitWsHead(s: String)
    requires s != [] && !IsSpace(s[0])
    ensures SplitWs(s)[0] != [] && SplitWs(s)[0][0] == s[0]
  {
  }

  /** Splitting a trimmed, non-empty string yields only non-empty words:
      this is what `text.trim().split(/\s+/)` counts. */
  lemma {:induction false} SplitWsTrimmedWordsNonEmpty(s: String)
    requires s != [] && Trimmed(s)
    ensures forall k :: 0 <= k < |SplitWs(s)| ==> SplitWs(s)[k] != []
    decreases |s|
  {
    var rest := SplitWs(s[1..]);
    if |s| == 1 {
      assert rest == [[]];
    } else {
      var t := s[1..];
      assert !IsSpace(t[|t| - 1]);
      if IsSpace(t[0]) {
        var u := TrimStart(t);
        TrimStartKeepsEnd(t);
        SplitWsTrimmedWordsNonEmpty(u);
        assert rest == [[]] + SplitWs(u);
      } else {
        SplitWsTrimmedWordsNonEmpty(t);
      }
    }
  }

  // ------------------------------------------------- substring search

  predicate StartsWith(s: String, p: String)
  {
    |p| <= |s| && s[..|p|] == p
  }

  predicate EndsWith(s: String, p: String)
  {
    |p| <= |s| && s[|s| - |p|..] == p
  }

  /** `p` occurs in `s` at position `i`. */
  predicate OccursAt(s: String, p: String, i: int)
  {
    0 <= i && i + |p| <= |s| && s[i..i + |p|] == p
  }

  /** `s.indexOf(p)`: the first position where `p` occurs. */
  function IndexOf(s: String, p: String): (r: Option<nat>)
    ensures r.Some? ==> OccursAt(s, p, r.value)
    ensures r.Some? ==> forall j :: 0 <= j < r.value ==> !OccursAt(s, p, j)
    ensures r.None? ==> forall j :: !OccursAt(s, p, j)
    decreases |s|
  {
    if StartsWith(s, p) then Some(0)
    else if s == [] then None
    else
      var r := IndexOf(s[1..], p);
      assert forall j :: 1 <= j ==> (OccursAt(s, p, j) <==> OccursAt(s[1..], p, j - 1)) by {
        forall j | 1 <= j {
          OccursAtShift(s, p, j);
        }
      }
      match r
      case None => None
      case Some(i) => Some(i + 1)
  }

  lemma OccursAtShift(s: String, p: String, j: int)
    requires s != [] && 1 <= j
    ensures OccursAt(s, p, j) <==> OccursAt(s[1..], p, j - 1)
  {
    if j + |p| <= |s| {
      var a, b := s[j..j + |p|], s[1..][j - 1..j - 1 + |p|];
      assert |a| == |b|;
      forall k | 0 <= k < |a|
        ensures a[k] == b[k]
      {
        assert a[k] == s[j + k];
        assert b[k] == s[1..][j - 1 + k];
      }
      assert a == b;
    }
  }

  /** `s.includes(p)` */
  predicate Contains(s: String, p: String)
  {
    IndexOf(s, p).Some?
  }

  /** `includes` is true exactly when the pattern occurs somewhere. */
  lemma ContainsIff(s: String, p: String)
    ensures Contains(s, p) <==> exists i :: OccursAt(s, p, i)
  {
  }

  /** Every string contains the empty string. */
  lemma ContainsEmpty(s: String)
    ensures Contains(s, [])
  {
    assert StartsWith(s, []);
  }

  lemma {:induction false} ContainsOccurs(s: String, p: String, i: int)
    requires OccursAt(s, p, i)
    ensures Contains(s, p)
  {
  }

  /** A pattern placed anywhere in a string is contained in it. */
  lemma ContainsMiddle(a: String, p: String, b: String)
    ensures Contains(a + p + b, p)
  {
    var s := a + p + b;
    assert s[|a|..|a| + |p|] == p;
    ContainsOccurs(s, p, |a|);
  }

  /** A string without the pattern's first character does not contain it. */
  lemma MissingFirstChar(s: String, p: String)
    requires p != [] && p[0] !in s
    ensures !Contains(s, p)
  {
  }

  /** A string containing `a + b` contains `a`. */
  lemma ContainsPrefixOf(s: String, a: String, b: String)
    requires Contains(s, a + b)
    ensures Contains(s, a)
  {
    var i := IndexOf(s, a + b).value;
    assert s[i..i + |a|] == (a + b)[..|a|];
    ContainsOccurs(s, a, i);
  }

  /** `s.replace(p, rep)` with a string pattern: only the first occurrence
      (the position `IndexOf` finds) is replaced. */
  function ReplaceFirst(s: String, p: String, rep: String): (r: String)
    ensures !Contains(s, p) ==> r == s
    ensures Contains(s, p) ==> var i := IndexOf(s, p).value; r == s[..i] + rep + s[i + |p|..]
    ensures Contains(s, p) ==> |r| == |s| - |p| + |rep|
  {
    match IndexOf(s, p)
    case None => s
    case Some(i) => s[..i] + rep + s[i + |p|..]
  }

  /** `s.replace(/p/g, '')` for a literal pattern `p`: scans left to right,
      dropping each non-overlapping occurrence. */
  function RemoveAll(s: String, p: String): (r: String)
    requires p != []
    ensures |r| <= |s|
    decreases |s|
  {
    if s == [] then []
    else if StartsWith(s, p) then RemoveAll(s[|p|..], p)
    else [s[0]] + RemoveAll(s[1..], p)
  }

  /** The test "not one of the characters of `p`". */
  function Outside(p: String): char -> bool
  {
    c => c !in p
  }

  /** Removing `p` keeps every character that is not in `p`, in order. */
  lemma {:induction false} RemoveAllKeepsOthers(s: String, p: String)
    requires p != []
    ensures Filter(RemoveAll(s, p), Outside(p)) == Filter(s, Outside(p))
    decreases |s|
  {
    if s != [] {
      if StartsWith(s, p) {
        RemoveAllKeepsOthers(s[|p|..], p);
        assert s == s[..|p|] + s[|p|..];
        FilterAppend(s[..|p|], s[|p|..], Outside(p));
        FilterNone(s[..|p|], Outside(p));
      } else {
        RemoveAllKeepsOthers(s[1..], p);
      }
    }
  }

  /** An occurrence of `p` at the front is removed. */
  lemma RemoveAllPrefix(p: String, s: String)
    requires p != []
    ensures RemoveAll(p + s, p) == RemoveAll(s, p)
  {
    assert (p + s)[..|p|] == p;
    assert (p + s)[|p|..] == s;
  }

  /** Everything before the first occurrence is kept, the occurrence is
      dropped, and the scan goes on after it. */
  lemma IndexOfTail(s: String, p: String, i: nat)
    requires IndexOf(s, p) == Some(i) && i > 0
    ensures s != [] && !StartsWith(s, p) && IndexOf(s[1..], p) == Some(i - 1)
    ensures i + |p| <= |s|
  {
  }

  lemma RemoveAllCons(s: String, p: String)
    requires p != [] && s != [] && !StartsWith(s, p)
    ensures RemoveAll(s, p) == [s[0]] + RemoveAll(s[1..], p)
  {
  }

  lemma RemoveAllAtFront(s: String, p: String)
    requires p != [] && IndexOf(s, p) == Some(0)
    ensures RemoveAll(s, p) == s[..0] + RemoveAll(s[|p|..], p)
  {
    assert StartsWith(s, p);
    assert s[..0] == [];
  }

  lemma {:induction false} RemoveAllFirst(s: String, p: String, i: nat)
    requires p != [] && IndexOf(s, p) == Some(i)
    ensures RemoveAll(s, p) == s[..i] + RemoveAll(s[i + |p|..], p)
    decreases i
  {
    if i == 0 {
      RemoveAllAtFront(s, p);
    } else {
      var t, k := s[1..], i - 1;
      IndexOfTail(s, p, i);
      RemoveAllFirst(t, p, k);
      RemoveAllFirstStep(s, t, p, i, k);
    }
  }

  lemma RemoveAllFirstStep(s: String, t: String, p: String, i: nat, k: nat)
    requires p != [] && s != [] && t == s[1..] && i == k + 1 && i + |p| <= |s|
    requires !StartsWith(s, p)
    requires RemoveAll(t, p) == t[..k] + RemoveAll(t[k + |p|..], p)
    ensures RemoveAll(s, p) == s[..i] + RemoveAll(s[i + |p|..], p)
  {
    RemoveAllCons(s, p);
    SuffixOfSuffix(s, 1, k + |p|);
    ConsSlice(s, i);
    ConsAppendAssoc(s[0], t[..k], RemoveAll(s[i + |p|..], p));
  }

  /** Removing a pattern that does not occur leaves the text unchanged. */
  lemma {:induction false} RemoveAllAbsent(s: String, p: String)
    requires p != [] && !Contains(s, p)
    ensures RemoveAll(s, p) == s
    decreases |s|
  {
    if s != [] {
      RemoveAllAbsent(s[1..], p);
      assert [s[0]] + s[1..] == s;
    }
  }
}
