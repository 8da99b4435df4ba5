/** `isValidQuizLine` (app.js): which voice lines may be shown as quiz
    prompts.  Five rules, tried in order, each rejecting the line:
    too short, too few words, a digit, mostly laughter, an item name. */
module QuizLine {
  import opened Seqs
  import opened Text

  /** Lines shorter than this are rejected outright. */
  const MinLength: nat := 15

  /** Interjections that, at the start of the lower-cased line and followed
      by a word boundary, make the laughter rule look at the line. */
  const LaughStems: seq<String> := ["ha", "he", "ho", "hm", "ugh", "ah", "oh"]

  /** A word is a laugh word when its lower-cased letters spell one of these. */
  const LaughForms: seq<String> := ["ha", "he", "ho", "haha", "hehe", "hahaha"]

  /** `text.trim().split(/\s+/)` */
  function Words(text: String): (r: seq<String>)
  {
    SplitWs(Trim(text))
  }

  /** `^stem\b` on the lower-cased line: the stem ends in a letter, so the
      boundary holds at the end of the line or before a non-word character. */
  predicate StemAt(lower: String, stem: String)
  {
    StartsWith(lower, stem) && (|lower| == |stem| || !IsWordChar(lower[|stem|]))
  }

  /** The guard of the laughter rule. */
  predicate LaughTrigger(lower: String)
  {
    (exists stem :: stem in LaughStems && StemAt(lower, stem))
    || Contains(lower, "haha") || Contains(lower, "hehe")
  }

  predicate IsLaughWord(w: String)
  {
    LettersOnly(Lower(w)) in LaughForms
  }

  /** How many of `words` are laugh words. */
  function LaughCount(words: seq<String>): (r: nat)
    decreases |words|
  {
    if words == [] then 0
    else LaughCount(words[..|words| - 1]) + (if IsLaughWord(words[|words| - 1]) then 1 else 0)
  }

  /** `laughWords > words.length * 0.4`, in integers. */
  predicate MostlyLaughter(text: String)
  {
    LaughTrigger(Lower(text)) && 10 * LaughCount(Words(text)) > 4 * |Words(text)|
  }

  /** The letters-only, lower-cased line equals an entry of the item list,
      when the page has one (`window.DOTA_ITEMS`). */
  predicate IsItemName(text: String, items: Option<seq<String>>)
  {
    items.Some? && LettersOnly(Lower(text)) in items.value
  }

  /** The specification: a line is a quiz line when no rule rejects it. */
  predicate ValidQuizLine(text: String, items: Option<seq<String>>)
  {
    && |text| >= MinLength
    && |Words(text)| > 3
    && !HasDigit(text)
    && !MostlyLaughter(text)
    && !IsItemName(text, items)
  }

  /** The `laughWords` counter loop of the laughter rule. */
  method CountLaughWords(words: seq<String>) returns (laughWords: nat)
    ensures laughWords == LaughCount(words)
  {
    laughWords := 0;
    var i := 0;
    while i < |words|
      invariant 0 <= i <= |words|
      invariant laughWords == LaughCount(words[..i])
    {
      assert words[..i + 1][..i] == words[..i];
      if IsLaughWord(words[i]) {
        laughWords := laughWords + 1;
      }
      i := i + 1;
    }
    assert words[..i] == words;
  }

  /** The validator as app.js runs it: the rules in order, returning at the
      first that rejects the line. */
  method IsValidQuizLine(text: String, items: Option<seq<String>>) returns (ok: bool)
    ensures ok <==> ValidQuizLine(text, items)
  {
    if |text| < MinLength {
      return false;
    }
    var words := Words(text);
    if |words| <= 3 {
      return false;
    }
    if HasDigit(text) {
      return false;
    }
    var lower := Lower(text);
    if LaughTrigger(lower) {
      var laughWords := CountLaughWords(words);
      if 10 * laughWords > 4 * |words| {
        return false;
      }
    }
    if items.Some? {
      var cleanText := LettersOnly(lower);
      if cleanText in items.value {
        return false;
      }
    }
    return true;
  }

  /** There are never more laugh words than words. */
  lemma {:induction false} LaughCountAtMost(words: seq<String>)
    ensures LaughCount(words) <= |words|
    decreases |words|
  {
    if words != [] {
      LaughCountAtMost(words[..|words| - 1]);
    }
  }

  /** When every word is a laugh word, all of them are counted. */
  lemma {:induction false} LaughCountAll(words: seq<String>)
    requires forall k :: 0 <= k < |words| ==> IsLaughWord(words[k])
    ensures LaughCount(words) == |words|
    decreases |words|
  {
    if words != [] {
      LaughCountAll(words[..|words| - 1]);
    }
  }

  /** A line made only of laugh words is rejected once the laughter rule
      looks at it (for instance "Hahaha haha hehe ha ha"). */
  lemma AllLaughterRejected(text: String, items: Option<seq<String>>)
    requires LaughTrigger(Lower(text))
    requires forall k :: 0 <= k < |Words(text)| ==> IsLaughWord(Words(text)[k])
    ensures !ValidQuizLine(text, items)
  {
    LaughCountAll(Words(text));
  }

  /** A line opening with one of the interjections, followed by its end or
      a non-word character, makes the laughter rule look at it. */
  lemma StemLineTriggers(k: nat, rest: String)
    requires k < |LaughStems|
    requires rest == [] || !IsWordChar(rest[0])
    ensures LaughTrigger(LaughStems[k] + rest)
  {
    var stem := LaughStems[k];
    assert (stem + rest)[..|stem|] == stem;
    assert StemAt(stem + rest, stem);
  }

  /** "haha" or "hehe" anywhere in the line makes the laughter rule look at it. */
  lemma InnerLaughTriggers(a: String, laugh: String, b: String)
    requires laugh == "haha" || laugh == "hehe"
    ensures LaughTrigger(a + laugh + b)
  {
    ContainsMiddle(a, laugh, b);
  }

  /** What an accepted line looks like: at least 15 characters, no digit,
      and at least four non-empty words free of whitespace. */
  lemma ValidLineShape(text: String, items: Option<seq<String>>)
    requires ValidQuizLine(text, items)
    ensures |text| >= MinLength && !HasDigit(text)
    ensures |Words(text)| >= 4
    ensures forall k :: 0 <= k < |Words(text)| ==> Words(text)[k] != [] && NoSpace(Words(text)[k])
  {
    var t := Trim(text);
    SplitWsTrimmedWordsNonEmpty(t);
    SplitWsPiecesHaveNoSpace(t);
  }

  /** A text made only of whitespace is one empty "word" and is rejected,
      however long it is. */
  lemma BlankLineRejected(text: String, items: Option<seq<String>>)
    requires AllSpace(text)
    ensures |Words(text)| == 1
    ensures !ValidQuizLine(text, items)
  {
    TrimStartAllSpace(text);
  }
}
