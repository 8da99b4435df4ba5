/** The quiz mode of app.js: choosing a question, the answer box with its
    autocomplete list and keyboard handling, the guess and the streak score,
    and the reveal clip's play/pause flag. */
module Quiz {
  import opened Seqs
  import opened Text
  import opened Dataset
  import opened Search
  import opened QuizLine

  // ------------------------------------------------- question selection

  /** Line `j` of hero `h` may be asked: the hero has more than five lines
      and the line passes `isValidQuizLine`. */
  predicate Eligible(heroes: seq<HeroRecord>, items: Option<seq<String>>, h: int, j: int)
  {
    && 0 <= h < |heroes|
    && |heroes[h].lines| > 5
    && 0 <= j < |heroes[h].lines|
    && ValidQuizLine(heroes[h].lines[j].text, items)
  }

  /** Some line of some hero may be asked. */
  predicate HasEligible(heroes: seq<HeroRecord>, items: Option<seq<String>>)
  {
    exists h, j | 0 <= h < |heroes| && 0 <= j < |heroes[h].lines| :: Eligible(heroes, items, h, j)
  }

  /** Every (hero, line) pair that `loadNextQuestion` can land on: its
      retry loops draw heroes and lines at random until a draw is eligible,
      so any eligible pair may come out and no other. */
  function EligiblePicks(heroes: seq<HeroRecord>, items: Option<seq<String>>): (r: set<(int, int)>)
  {
    set h, j | 0 <= h < |heroes| && 0 <= j < |heroes[h].lines| && Eligible(heroes, items, h, j) :: (h, j)
  }

  /** A question can be drawn exactly when some line is eligible (the
      retry loops end), and a drawn line looks like a quiz line: its hero
      has at least six lines, and the line has at least 15 characters, no
      digit, and at least four words, none empty and none with whitespace. */
  lemma DrawnQuestionShape(heroes: seq<HeroRecord>, items: Option<seq<String>>, h: int, j: int)
    ensures EligiblePicks(heroes, items) != {} <==> HasEligible(heroes, items)
    ensures (h, j) in EligiblePicks(heroes, items) ==>
              && |heroes[h].lines| >= 6
              && |heroes[h].lines[j].text| >= MinLength && !HasDigit(heroes[h].lines[j].text)
              && |Words(heroes[h].lines[j].text)| >= 4
              && forall k :: 0 <= k < |Words(heroes[h].lines[j].text)| ==>
                   Words(heroes[h].lines[j].text)[k] != [] && NoSpace(Words(heroes[h].lines[j].text)[k])
  {
    if HasEligible(heroes, items) {
      var h', j' :| 0 <= h' < |heroes| && 0 <= j' < |heroes[h'].lines| && Eligible(heroes, items, h', j');
      assert (h', j') in EligiblePicks(heroes, items);
    }
    if (h, j) in EligiblePicks(heroes, items) {
      ValidLineShape(heroes[h].lines[j].text, items);
    }
  }

  // ------------------------------------------------ autocomplete cursor

  /** `autocompleteIndex` after ArrowDown over `n` suggestions. */
  function ArrowDownIndex(index: int, n: nat): (r: int)
    ensures n == 0 ==> r == index
    ensures n > 0 && -1 <= index ==> 0 <= r < n
  {
    if n == 0 then index
    else if index + 1 >= n then 0
    else index + 1
  }

  /** `autocompleteIndex` after ArrowUp over `n` suggestions. */
  function ArrowUpIndex(index: int, n: nat): (r: int)
    ensures n == 0 ==> r == index
    ensures n > 0 && index < n ==> 0 <= r < n
  {
    if n == 0 then index
    else if index - 1 < 0 then n - 1
    else index - 1
  }

  /** The cursor wraps at both ends of the list. */
  lemma CursorWraps(n: nat)
    requires n > 0
    ensures ArrowDownIndex(n - 1, n) == 0
    ensures ArrowUpIndex(0, n) == n - 1
    ensures ArrowDownIndex(-1, n) == 0
  {
  }

  /** ArrowUp undoes ArrowDown and the other way round, on any highlighted item. */
  lemma CursorMovesInvert(index: int, n: nat)
    requires 0 <= index < n
    ensures ArrowUpIndex(ArrowDownIndex(index, n), n) == index
    ensures ArrowDownIndex(ArrowUpIndex(index, n), n) == index
  {
  }

  /** The cursor after `k` presses of ArrowDown. */
  function DownPresses(index: int, n: nat, k: nat): (r: int)
    decreases k
  {
    if k == 0 then index else ArrowDownIndex(DownPresses(index, n, k - 1), n)
  }

  /** Pressing ArrowDown `k <= n` times from item `index` moves the cursor
      `k` items on, wrapping past the end once at most. */
  lemma {:induction false} DownPressesAdvance(index: int, n: nat, k: nat)
    requires 0 <= index < n && k <= n
    ensures DownPresses(index, n, k) == if index + k < n then index + k else index + k - n
    decreases k
  {
    if k > 0 {
      DownPressesAdvance(index, n, k - 1);
    }
  }

  /** Some press of ArrowDown, fewer than `n`, puts the cursor on `item`. */
  predicate Visited(index: int, n: nat, item: int)
  {
    exists k :: 0 <= k < n && DownPresses(index, n, k) == item
  }

  /** `n` presses of ArrowDown over `n` suggestions bring the cursor back to
      where it started, having visited every item. */
  lemma DownPressesCycle(index: int, n: nat)
    requires 0 <= index < n
    ensures DownPresses(index, n, n) == index
    ensures forall item :: 0 <= item < n ==> Visited(index, n, item)
  {
    DownPressesAdvance(index, n, n);
    forall item | 0 <= item < n
      ensures Visited(index, n, item)
    {
      var k := if item >= index then item - index else item - index + n;
      DownPressesAdvance(index, n, k);
      assert DownPresses(index, n, k) == item;
    }
  }

  // ------------------------------------------------------ Enter fallback

  /** The hero name is exactly the lower-cased query. */
  predicate NameIs(h: HeroRecord, val: String)
  {
    Lower(h.hero) == val
  }

  /** The hero name contains the lower-cased query. */
  predicate NameMentions(h: HeroRecord, val: String)
  {
    Contains(Lower(h.hero), val)
  }

  /** The search for a hero whose name mentions the query. */
  function Mentioning(val: String): HeroRecord -> bool
  {
    h => NameMentions(h, val)
  }

  /** The search for a hero whose name is the query. */
  function Named(val: String): HeroRecord -> bool
  {
    h => NameIs(h, val)
  }

  /** A hero named exactly by the query is mentioned by it. */
  lemma NamedIsMentioning(val: String)
    ensures forall h :: Named(val)(h) ==> Mentioning(val)(h)
  {
    forall h | Named(val)(h)
      ensures Mentioning(val)(h)
    {
      assert Lower(h.hero)[0..|val|] == val;
      ContainsOccurs(Lower(h.hero), val, 0);
    }
  }

  /** Enter with nothing highlighted: the trimmed, lower-cased box value;
      no guess if it is empty or no hero name contains it; otherwise the
      hero whose name is exactly the value, else the first that contains it.
      Stated against searches of the whole hero list. */
  function TopMatch(heroes: seq<HeroRecord>, value: String): (r: Option<String>)
    ensures var val := Trim(Lower(value));
            r.None? <==> val == [] || Find(heroes, Mentioning(val)).None?
    ensures var val := Trim(Lower(value));
            val != [] && Find(heroes, Named(val)).Some? ==>
              r == Some(heroes[Find(heroes, Named(val)).value].hero)
    ensures var val := Trim(Lower(value));
            val != [] && Find(heroes, Named(val)).None? && Find(heroes, Mentioning(val)).Some? ==>
              r == Some(heroes[Find(heroes, Mentioning(val)).value].hero)
  {
    var val := Trim(Lower(value));
    if val == [] then None
    else
      var mentions := Mentioning(val);
      var exact := Named(val);
      var filtered := Filter(heroes, mentions);
      NamedIsMentioning(val);
      FindInFilter(heroes, mentions, exact);
      FindInFilter(heroes, mentions, mentions);
      if filtered == [] then None
      else
        match Find(filtered, exact)
        case Some(i) => Some(filtered[i].hero)
        case None =>
          FilterMembers(heroes, mentions);
          assert filtered[0] in filtered;
          assert Find(filtered, mentions) == Some(0);
          Some(filtered[0].hero)
  }

  /** The guess Enter makes in the answer box, if any. */
  function EnterGuess(index: int, suggestions: seq<String>, value: String, heroes: seq<HeroRecord>): (r: Option<String>)
    ensures 0 <= index < |suggestions| ==> r == Some(suggestions[index])
    ensures !(0 <= index < |suggestions|) ==> r == TopMatch(heroes, value)
  {
    if index > -1 && |suggestions| > 0 && index < |suggestions| then Some(suggestions[index])
    else TopMatch(heroes, value)
  }

  /** The autocomplete list for a box value: empty for an empty box, else
      the names of the matching heroes in list order. */
  function Suggestions(heroes: seq<HeroRecord>, value: String): (r: seq<String>)
    ensures value == [] ==> r == []
    ensures forall i :: 0 <= i < |r| ==> exists h :: h in heroes && h.hero == r[i] && HeroMatches(h, value)
    ensures value != [] ==> forall h :: h in heroes && HeroMatches(h, value) ==> h.hero in r
    ensures value != [] ==> r == Names(FilterHeroes(heroes, value))
  {
    if value == [] then [] else
      var hs := FilterHeroes(heroes, value);
      assert forall i :: 0 <= i < |hs| ==> hs[i] in hs;
      var r := Names(hs);
      forall h | h in hs
        ensures h.hero in r
      {
        var i :| 0 <= i < |hs| && hs[i] == h;
        assert r[i] == h.hero;
      }
      r
  }

  /** The first suggestion, the one the cursor is put on, is the name
      of the first matching hero in the list; there is one exactly when some
      hero matches. */
  lemma FirstSuggestion(heroes: seq<HeroRecord>, value: String)
    requires value != []
    ensures Suggestions(heroes, value) != [] <==> Find(heroes, Matching(value)).Some?
    ensures Find(heroes, Matching(value)).Some? ==>
              Suggestions(heroes, value)[0] == heroes[Find(heroes, Matching(value)).value].hero
  {
    var hs := FilterHeroes(heroes, value);
    FindInFilter(heroes, Matching(value), Matching(value));
    if hs != [] {
      assert hs[0] in hs;
      assert Find(hs, Matching(value)) == Some(0);
    }
  }

  // -------------------------------------------------------------- score

  /** The score after guesses with these outcomes, starting from `start`:
      +1 for a correct guess, back to 0 for a wrong one. */
  function ScoreAfter(start: nat, outcomes: seq<bool>): (r: nat)
    decreases |outcomes|
  {
    if outcomes == [] then start
    else
      var before := ScoreAfter(start, outcomes[..|outcomes| - 1]);
      if outcomes[|outcomes| - 1] then before + 1 else 0
  }

  /** How many correct guesses end the sequence. */
  function TrailingCorrect(outcomes: seq<bool>): (r: nat)
    decreases |outcomes|
  {
    if outcomes == [] || !outcomes[|outcomes| - 1] then 0
    else TrailingCorrect(outcomes[..|outcomes| - 1]) + 1
  }

  /** The score is the current streak: the run of correct guesses since the
      last wrong one, or since the start when there was none. */
  lemma {:induction false} ScoreIsStreak(start: nat, outcomes: seq<bool>)
    ensures false in outcomes ==> ScoreAfter(start, outcomes) == TrailingCorrect(outcomes)
    ensures false !in outcomes ==> ScoreAfter(start, outcomes) == start + |outcomes|
    decreases |outcomes|
  {
    if outcomes != [] {
      var init := outcomes[..|outcomes| - 1];
      ScoreIsStreak(start, init);
      assert outcomes == init + [outcomes[|outcomes| - 1]];
    }
  }

  // ------------------------------------------------------------- session

  datatype Key = ArrowDown | ArrowUp | Enter | OtherKey

  /** The closure state of the quiz mode. */
  class QuizSession {
    /** `rawData`, the loaded heroes (in the order app.js sorted them). */
    const heroes: seq<HeroRecord>
    /** `window.DOTA_ITEMS`, when the page defines it. */
    const items: Option<seq<String>>
    /** `EligiblePicks(heroes, items)`: the data never changes, so neither
        does the set of questions that can be drawn; each is eligible. */
    const candidates: set<(int, int)>

    var score: nat
    /** `currentAnswerHero` and `currentQuizLine` */
    var answer: Option<String>
    var line: Option<Line>
    /** Which hero and which of its lines the question was drawn from. */
    ghost var pickHero: int
    ghost var pickLine: int
    /** `quizPlaying`: the reveal clip is playing. */
    var clipPlaying: bool
    /** The answer box: its value, whether it is disabled, the autocomplete
        items it shows and `autocompleteIndex`. */
    var searchValue: String
    var searchDisabled: bool
    var suggestions: seq<String>
    var index: int
    /** The feedback, the clip reveal and the next-question button are shown. */
    var revealed: bool

    ghost predicate Valid()
      reads this
    {
      && (forall p | p in candidates :: 0 <= p.0 < |heroes| && 0 <= p.1 < |heroes[p.0].lines|)
      && (forall p {:trigger Eligible(heroes, items, p.0, p.1)} | p in candidates :: Eligible(heroes, items, p.0, p.1))
      && -1 <= index < |suggestions|
      && (answer.Some? <==> line.Some?)
      && (answer.Some? ==> && (pickHero, pickLine) in candidates
                           && answer.value == heroes[pickHero].hero
                           && line.value == heroes[pickHero].lines[pickLine])
      && (clipPlaying ==> line.Some?)
    }

    /** The text `displayQuote` shows for the current question. */
    function Quote(): String
      reads this
    {
      if line.None? then [] else CleanQuote(line.value.text)
    }

    /** The source of `quizAudio`, the current question's clip. */
    function Clip(): Option<String>
      reads this
    {
      if line.None? then None else Some(ResolveAudio(line.value.audio))
    }

    constructor (heroes: seq<HeroRecord>, items: Option<seq<String>>)
      ensures Valid()
      ensures this.heroes == heroes && this.items == items
      ensures candidates == EligiblePicks(heroes, items)
      ensures score == 0 && answer.None? && line.None?
      ensures !clipPlaying && !revealed
      ensures searchValue == [] && !searchDisabled && suggestions == [] && index == -1
    {
      this.heroes := heroes;
      this.items := items;
      candidates := EligiblePicks(heroes, items);
      score := 0;
      answer := None;
      line := None;
      clipPlaying := false;
      searchValue := [];
      searchDisabled := false;
      suggestions := [];
      index := -1;
      revealed := false;
    }

    /** The start button: the score starts at 0 and a question is loaded. */
    method Start()
      requires Valid() && candidates != {}
      modifies this
      ensures Valid()
      ensures score == 0
      ensures searchValue == [] && !searchDisabled && !revealed && !clipPlaying
      ensures suggestions == [] && index == -1
      ensures answer.Some? && line.Some? && Eligible(heroes, items, pickHero, pickLine)
      ensures answer.value == heroes[pickHero].hero && line.value == heroes[pickHero].lines[pickLine]
    {
      score := 0;
      LoadNextQuestion();
    }

    /** The part of `loadNextQuestion` that resets the answer box, as app.js
        writes it: the autocomplete items and `autocompleteIndex` are left
        as they were. */
    method ClearAnswerBoxAsWritten()
      requires Valid()
      modifies this
      ensures Valid()
      ensures searchValue == [] && !searchDisabled && !revealed && !clipPlaying
      ensures suggestions == old(suggestions) && index == old(index)
      ensures score == old(score) && answer == old(answer) && line == old(line)
    {
      revealed := false;
      searchValue := [];
      searchDisabled := false;
      clipPlaying := false;
    }

    /** The same reset with the stale autocomplete items cleared and the
        cursor reset, so that Enter in the fresh box makes no guess. */
    method ClearAnswerBox()
      requires Valid()
      modifies this
      ensures Valid()
      ensures searchValue == [] && !searchDisabled && !revealed && !clipPlaying
      ensures suggestions == [] && index == -1
      ensures score == old(score) && answer == old(answer) && line == old(line)
    {
      revealed := false;
      searchValue := [];
      searchDisabled := false;
      clipPlaying := false;
      suggestions := [];
      index := -1;
    }

    /** `loadNextQuestion` (also the skip and next-question buttons): the
        score is untouched, the box is reset and an eligible line becomes
        the question; its cleaned text is the quote shown and its resolved
        URL the reveal clip. */
    method LoadNextQuestion()
      requires Valid() && candidates != {}
      modifies this
      ensures Valid()
      ensures score == old(score)
      ensures searchValue == [] && !searchDisabled && !revealed && !clipPlaying
      ensures suggestions == [] && index == -1
      ensures answer.Some? && line.Some?
      ensures (pickHero, pickLine) in candidates && Eligible(heroes, items, pickHero, pickLine)
      ensures answer.value == heroes[pickHero].hero && line.value == heroes[pickHero].lines[pickLine]
    {
      ClearAnswerBox();
      var pick :| pick in candidates;
      var (h, j) := pick;
      answer := Some(heroes[h].hero);
      line := Some(heroes[h].lines[j]);
      pickHero, pickLine := h, j;
    }

    /** `handleGuess`: the box shows the guess and is disabled; a guess equal
        to the answer adds one to the score, any other guess resets it to 0. */
    method HandleGuess(guess: String) returns (correct: bool)
      requires Valid()
      modifies this
      ensures Valid()
      ensures correct <==> old(answer) == Some(guess)
      ensures score == if correct then old(score) + 1 else 0
      ensures searchValue == guess && searchDisabled && revealed
      ensures answer == old(answer) && line == old(line) && clipPlaying == old(clipPlaying)
      ensures suggestions == old(suggestions) && index == old(index)
    {
      searchValue := guess;
      searchDisabled := true;
      correct := answer == Some(guess);
      if correct {
        score := score + 1;
      } else {
        score := 0;
      }
      revealed := true;
    }

    /** Typing in the answer box: the autocomplete list is rebuilt and the
        cursor goes to its first item, or to -1 when it is empty. */
    method Input(value: String)
      requires Valid()
      modifies this
      ensures Valid()
      ensures searchValue == value
      ensures suggestions == Suggestions(heroes, value)
      ensures index == if suggestions == [] then -1 else 0
      ensures value != [] && (exists h :: h in heroes && HeroMatches(h, value)) ==> index == 0
      ensures score == old(score) && answer == old(answer) && line == old(line)
      ensures clipPlaying == old(clipPlaying)
      ensures searchDisabled == old(searchDisabled) && revealed == old(revealed)
    {
      searchValue := value;
      var filtered := Suggestions(heroes, value);
      suggestions := filtered;
      index := if filtered == [] then -1 else 0;
    }

    /** The keydown handler of the answer box.  A disabled box ignores keys;
        the arrows move the cursor with wrap-around; Enter guesses the
        highlighted suggestion, or else the best match for the box value. */
    method KeyDown(key: Key) returns (guess: Option<String>, correct: bool)
      requires Valid()
      modifies this
      ensures Valid()
      ensures key != ArrowDown && key != ArrowUp ==> index == old(index)
      ensures old(searchDisabled) || key == OtherKey ==>
                guess.None? && index == old(index) && score == old(score) && searchValue == old(searchValue)
      ensures !old(searchDisabled) && key == ArrowDown ==>
                guess.None? && index == ArrowDownIndex(old(index), |suggestions|)
      ensures !old(searchDisabled) && key == ArrowUp ==>
                guess.None? && index == ArrowUpIndex(old(index), |suggestions|)
      ensures !old(searchDisabled) && key == Enter ==>
                guess == EnterGuess(old(index), old(suggestions), old(searchValue), heroes)
      ensures guess.None? ==> score == old(score) && searchValue == old(searchValue)
                              && searchDisabled == old(searchDisabled) && revealed == old(revealed)
      ensures guess.Some? ==> searchValue == guess.value && searchDisabled && revealed
                              && (correct <==> old(answer) == guess)
                              && score == (if correct then old(score) + 1 else 0)
      ensures suggestions == old(suggestions) && answer == old(answer) && line == old(line)
      ensures clipPlaying == old(clipPlaying)
    {
      guess, correct := None, false;
      if searchDisabled {
        return;
      }
      match key
      case ArrowDown =>
        if |suggestions| == 0 {
          return;
        }
        index := index + 1;
        if index >= |suggestions| {
          index := 0;
        }
      case ArrowUp =>
        if |suggestions| == 0 {
          return;
        }
        index := index - 1;
        if index < 0 {
          index := |suggestions| - 1;
        }
      case Enter =>
        if index > -1 && |suggestions| > 0 && index < |suggestions| {
          guess := Some(suggestions[index]);
        } else {
          guess := TopMatch(heroes, searchValue);
        }
        if guess.Some? {
          correct := HandleGuess(guess.value);
        }
      case OtherKey =>
    }

    /** The reveal clip's play/pause button. */
    method ToggleClip()
      requires Valid()
      modifies this`clipPlaying
      ensures Valid()
      ensures clipPlaying == (line.Some? && !old(clipPlaying))
    {
      if line.None? {
        return;
      }
      clipPlaying := !clipPlaying;
    }

    /** Switching to the explorer: a loaded reveal clip is paused and
        rewound, so it is no longer playing. */
    method StopForExplorer()
      requires Valid()
      modifies this`clipPlaying
      ensures Valid() && !clipPlaying
    {
      if line.Some? {
        clipPlaying := false;
      }
    }

    /** The reveal clip finished playing. */
    method ClipEnded()
      requires Valid()
      modifies this`clipPlaying
      ensures Valid() && !clipPlaying
    {
      clipPlaying := false;
    }
  }

  // ------------------------------------------------------------ finding

  /** As app.js is written, after a guess picked from the list and the next
      question, the box is empty but the hidden list and the cursor are
      stale: Enter guesses the previous hero again. */
  method StaleHighlightAsWritten() returns (guess: Option<String>)
    ensures guess == Some("Axe")
  {
    var axe := HeroRecord("Axe", []);
    var quiz := new QuizSession([axe], None);
    assert Lower("Axe") == "axe";
    assert Lower("ax") == "ax";
    assert OccursAt("axe", "ax", 0);
    assert Suggestions([axe], "ax") == ["Axe"];
    quiz.Input("ax");
    var first, _ := quiz.KeyDown(Enter);
    quiz.ClearAnswerBoxAsWritten();
    assert quiz.searchValue == [] && quiz.suggestions == ["Axe"] && quiz.index == 0;
    var second;
    guess, second := quiz.KeyDown(Enter);
  }

  /** With the corrected reset, Enter in the fresh, empty box makes no guess
      whatever the box showed before. */
  method StaleHighlightCorrected(heroes: seq<HeroRecord>, typed: String) returns (guess: Option<String>)
    ensures guess.None?
  {
    var quiz := new QuizSession(heroes, None);
    quiz.Input(typed);
    var first, _ := quiz.KeyDown(Enter);
    quiz.ClearAnswerBox();
    var second;
    guess, second := quiz.KeyDown(Enter);
  }
}
