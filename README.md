# dota2quiz in Dafny

A model of the two programs of dota2quiz, with proofs about it:

- **The scraper** (`scraper.js`) collects hero voice lines from the Dota 2 fandom wiki.
  - It pages through the `Category:Responses` listing, following `cmcontinue` tokens until a response has none.
  - It keeps the titles that mention "Responses" and processes them in batches of five.
  - For every page it derives the hero name from the title. It takes each `<li>` that has an audio source, cleans its text (link residue, the play sign and a leading em dash removed, then trimmed) and keeps it when something is left.
  - A page with at least one line becomes a `{ hero, lines }` record of the data file.
- **The browser app** (`app.js`) has two modes that use that data.
  - The explorer has search boxes for heroes and lines and a single audio slot that plays the clicked line and highlights it.
  - The quiz shows the cleaned text of a random eligible line (see `isValidQuizLine`) and asks which hero says it. It offers an autocomplete list driven by the keyboard, falls back to a best match on Enter, keeps a streak score and has a reveal clip that can be played and paused.

Modules, one file each:

| file | module | what it models |
|---|---|---|
| `Seqs.dfy` | `Seqs` | `filter`, `find`, batch flattening, collecting pushed results |
| `Text.dfy` | `Text` | JavaScript string semantics used by both programs: `\s` and `trim`, ASCII `toLowerCase`, `split(/\s+/)`, `includes`, `replace` |
| `Dataset.dfy` | `Dataset` | the records of the data file |
| `Search.dfy` | `Search` | the explorer search filters, clip URL resolution, the quiz's `displayQuote` cleaning |
| `QuizLine.dfy` | `QuizLine` | `isValidQuizLine`, as a specification predicate and as the method with its counting loop |
| `Quiz.dfy` | `Quiz` | question selection, the autocomplete cursor, the Enter fallback, the score, and the `QuizSession` class holding the quiz state |
| `Explorer.dfy` | `Explorer` | the `Player` class: `currentAudio`, `playingItem` and the highlighted line |
| `Scraper.dfy` | `Scraper` | pagination, the title filter, hero names, batches, transcript cleaning, line and record inclusion |

Conventions:

- Strings are sequences of Unicode characters (`char` is a Unicode scalar value). JavaScript strings are sequences of UTF-16 code units, so the two lengths differ for characters outside the Basic Multilingual Plane (see "## Left out"). `\s` is the exact ECMAScript whitespace set. `\d`, `\w` and `\b` are ASCII, as they are in regular expressions without the `u` flag.
- The quiz's laughter rule, `laughWords > words.length * 0.4`, is stated as `10 * laughWords > 4 * words`. The two comparisons agree for every word count `n` below about 3×10^15, which covers every string a JavaScript engine can hold: when 5 divides `n`, `n * 0.4` is computed exactly; otherwise `2n/5` lies at least `1/5` away from every integer, more than the rounding error of the double product at that size, so the integer `laughWords` falls on the same side of both. Near 3.4×10^15 the rounding error exceeds `1/5` and the two can differ (n = 3400000000000002 gives `n * 0.4` = 1360000000000001 while 2n/5 = 1360000000000000.8).
- The network, the HTML parser and the random numbers are parameters of the model:
  - the listing responses, in the order they arrive;
  - a function from page title to parsed list items;
  - a nondeterministic choice among the eligible questions.

## Model

| member | source | states |
|---|---|---|
| Seqs.FilterMembers | scraper.js:21 | `filter` keeps exactly the elements that pass the test, as a subsequence of the input in the original order |
| Seqs.FilterCounts | scraper.js:21 | `filter` keeps every copy of an element that passes the test and no copy of one that fails |
| Seqs.FilterAppend | scraper.js:21 | filtering a concatenation is filtering each part and concatenating the results |
| Seqs.FilterOfFilter | app.js:388-391 | filtering by a stronger test after a weaker one is filtering by the stronger test alone |
| Seqs.FilterNarrows | app.js:136-140 | a stronger test keeps no element that a weaker one drops |
| Seqs.FilterKeepsAll | app.js:138 | when every element passes, `filter` returns the whole list |
| Seqs.Find | app.js:390 | `find` yields the first element that passes: nothing before it passes; none only when no element passes |
| Seqs.FindInFilter | app.js:388-391 | an exact match looked up in the filtered hero list is the first exact match in the whole list, because every exact match also passes the filter |
| Seqs.FlattenAppend | scraper.js:28-29 | the titles of consecutive batches, joined, are the titles of each part joined |
| Seqs.Collect | scraper.js:62-64 | never more records pushed than there are titles |
| Seqs.CollectSound | scraper.js:62-64 | every record pushed is one that the callback for some title yielded |
| Seqs.CollectAppend | scraper.js:28-32 | the records of two runs of titles processed one after the other are those of the first run followed by those of the second |
| Text.Lower | app.js:221 | `toLowerCase` keeps the length and lower-cases every character (ASCII letters) |
| Text.LettersOnly | app.js:225 | `replace(/[^a-z]/g, '')` leaves only the letters a to z, in their order, with every copy of each letter kept and nothing else |
| Text.TrimStart | app.js:214 | the result has no leading whitespace and is no longer than the input |
| Text.TrimStartSuffix | app.js:214 | what is left is a suffix of the input, and only whitespace was cut from the front |
| Text.TrimStartKeepsEnd | app.js:214 | a text ending in a non-space keeps its last character when its front is trimmed |
| Text.TrimStartAllSpace | app.js:214 | nothing is left of a text made only of whitespace |
| Text.TrimEnd | app.js:214 | the result has no trailing whitespace and is no longer than the input |
| Text.TrimEndPrefix | app.js:214 | what is left is a prefix of the input, and only whitespace was cut from the back |
| Text.Trim | app.js:214 | `trim` leaves no whitespace at either end |
| Text.TrimIsSlice | app.js:214 | `trim` keeps a contiguous run of characters that starts where `trimStart` stops cutting |
| Text.TrimSlice | app.js:214 | `trim` returns a slice of its argument with only whitespace cut off on either side |
| Text.TrimStartKeeps | app.js:214 | trimming the front keeps every character that is not whitespace, in order |
| Text.TrimEndKeeps | app.js:214 | trimming the back keeps every character that is not whitespace, in order |
| Text.TrimKeeps | app.js:214 | `trim` removes only whitespace: every other character stays, in order |
| Text.TrimStartSplit | app.js:214 | a text is the whitespace `trimStart` drops followed by what it keeps |
| Text.TrimTrimmed | app.js:214 | trimming a string that has no whitespace at either end changes nothing |
| Text.TrimStartAfterSpace | app.js:214 | whitespace in front of a text is cut entirely, whatever follows it |
| Text.TrimStartAppend | app.js:214 | trimming the front of a text that ends in a non-space touches only that text, not what is appended to it |
| Text.TrimEndBeforeSpace | app.js:214 | trimming the back cuts exactly the whitespace appended after a text that ends in a non-space |
| Text.SplitWs | app.js:214 | `split(/\s+/)` yields one piece more than the text has maximal whitespace runs |
| Text.SplitWsJoin | app.js:214 | the pieces of `split(/\s+/)`, joined, are the text with its whitespace removed |
| Text.SplitWsPiecesHaveNoSpace | app.js:214 | no piece of `split(/\s+/)` contains whitespace |
| Text.SplitWsTrimmedWordsNonEmpty | app.js:214 | splitting a trimmed, non-empty text yields no empty word |
| Text.SplitWsWordFront | app.js:214 | a whitespace-free word in front of a text that is empty or starts with whitespace becomes part of that text's first piece, and the other pieces stay |
| Text.SplitWsWord | app.js:214 | a whitespace-free text is split into itself alone |
| Text.SplitWsGapFirst | app.js:214 | a text starting with whitespace splits into an empty first piece followed by the pieces of what comes after that whitespace |
| Text.SplitWsWordThenGap | app.js:214 | a whitespace-free word followed by a non-empty whitespace run is the first piece, and the pieces of what follows the run come after it: every cut falls exactly at a whitespace run |
| Text.IndexOf | app.js:138 | the first position where the pattern occurs, or none when it occurs nowhere |
| Text.ContainsIff | app.js:138 | `includes` holds exactly when the pattern occurs at some position |
| Text.ContainsMiddle | app.js:221 | a text contains every pattern placed inside it |
| Text.ReplaceFirst | scraper.js:40 | `replace` with a string pattern replaces the first occurrence only, and returns the text unchanged when there is none |
| Text.RemoveAll | scraper.js:50 | a global literal `replace` with '' never lengthens the text |
| Text.RemoveAllKeepsOthers | scraper.js:50 | a global literal `replace` with '' keeps every character not in the pattern, in order |
| Text.RemoveAllPrefix | scraper.js:50 | an occurrence of the pattern at the front of the text is removed |
| Text.RemoveAllAbsent | scraper.js:50 | a global literal `replace` with '' leaves the text unchanged when the pattern does not occur |
| Text.RemoveAllFirst | scraper.js:50 | a global literal `replace` with '' keeps everything before the first occurrence, drops that occurrence and goes on after it |
| Dataset.Names | app.js:330-335 | the names of the heroes, in list order, one per record |
| Search.FilterHeroes | app.js:136-140 | the hero search shows exactly the heroes whose lower-cased name contains the lower-cased query, in list order, each as many times as it is listed |
| Search.FilterLines | app.js:142-146 | the line search shows exactly the lines whose lower-cased text contains the query, in order, repeated lines included |
| Search.EmptyQueryShowsAllHeroes | app.js:136-140 | an empty hero query shows every hero |
| Search.EmptyQueryShowsAllLines | app.js:142-146 | an empty line query shows every line |
| Search.TypingNarrowsHeroes | app.js:136-140 | extending the query never adds a hero to the list |
| Search.ResolveAudio | app.js:75-79 | the clip source changes exactly when it starts with '/', and then the wiki host is put in front of it; the result still ends with the source and never starts with '/' |
| Search.ResolveAudioIdempotent | app.js:302-305 | resolving a resolved source changes nothing |
| Search.DropRu | app.js:296 | removing standalone r/u never lengthens the text, and a first character that is kept stays first |
| Search.DropRuLeavesNone | app.js:296 | after `replace(/\b[ru]\b/gi, '')` no r or u stands between non-word characters |
| Search.DropRuExact | app.js:296 | the r/u pass removes exactly the r and u characters of the original text that have no word character on either side, and keeps everything else in order |
| Search.DropRuKeepsOthers | app.js:296 | the r/u pass keeps every character other than r and u, in order |
| Search.DropRuKeepsClean | app.js:296 | a text without standalone r or u goes through the r/u pass unchanged |
| Search.Collapse | app.js:296 | after `replace(/\s{2,}/g, ' ')` no two whitespace characters are adjacent; the text is empty only if it was |
| Search.CollapseKeepsText | app.js:296 | collapsing whitespace keeps every other character, in order |
| Search.CollapseKeepsSingleSpaces | app.js:296 | a text without two adjacent whitespace characters is left as it is |
| Search.CollapseKeepsNoStandaloneRu | app.js:296 | collapsing whitespace does not make an r or u standalone |
| Search.CollapseKeepsWords | app.js:296 | collapsing whitespace keeps the pieces of `split(/\s+/)`: every whitespace run stays a single break and no run disappears |
| Search.CollapseAllSpace | app.js:296 | a whitespace-only text stays whitespace-only |
| Search.CollapseLast | app.js:296 | a text ending in a non-space still ends in that character |
| Search.CollapseAppend | app.js:296 | no whitespace run crosses the end of a text ending in a non-space, so the two sides collapse separately |
| Search.TrimStartCollapse | app.js:296 | collapsing and trimming the front commute |
| Search.TrimEndCollapse | app.js:296 | collapsing and trimming the back commute |
| Search.TrimCollapse | app.js:296 | collapsing and trimming commute |
| Search.TrimKeepsDisplay | app.js:296 | trimming keeps both properties: no standalone r/u and no double whitespace |
| Search.TrimKeepsNoStandaloneRu | app.js:296 | trimming keeps a text free of standalone r and u |
| Search.TrimKeepsNoDoubleSpace | app.js:296 | trimming keeps a text free of adjacent whitespace |
| Search.CleanQuote | app.js:296 | the quiz quote has no whitespace at either end, no two whitespace characters in a row and no standalone r or u; every character other than whitespace, r and u of the line is still there, in order; its non-whitespace characters are exactly those the r/u pass keeps; and it splits on whitespace into exactly the pieces of the trimmed r/u-stripped line, so each whitespace run became one space |
| Search.CleanQuoteKeepsClean | app.js:296 | a quote that is already trimmed, single-spaced and free of standalone r/u is shown as it is |
| Search.CleanQuoteIdempotent | app.js:296 | cleaning a cleaned quote changes nothing |
| Search.CleanQuoteKeepsWords | app.js:296 | collapsing and trimming after the r/u pass keep every non-whitespace character and every break between words |
| QuizLine.CountLaughWords | app.js:223-226 | the `laughWords` loop counts exactly the words whose lower-cased letters spell a laugh form |
| QuizLine.IsValidQuizLine | app.js:210-237 | the validator accepts a line exactly when no rule rejects it: length at least 15, more than three words, no digit, not mostly laughter when the laugh guard fires, not an item name |
| QuizLine.LaughCountAtMost | app.js:223-227 | there are never more laugh words than words |
| QuizLine.LaughCountAll | app.js:223-227 | when every word is a laugh word, all of them are counted |
| QuizLine.StemLineTriggers | app.js:221 | a line opening with one of the interjections, followed by its end or a non-word character, brings the laughter rule into play |
| QuizLine.InnerLaughTriggers | app.js:221 | "haha" or "hehe" anywhere in the line brings the laughter rule into play |
| QuizLine.AllLaughterRejected | app.js:220-228 | a line made only of laugh words that triggers the laugh guard is rejected |
| QuizLine.ValidLineShape | app.js:210-237 | an accepted line has at least 15 characters, no digit and at least four non-empty words without whitespace |
| QuizLine.BlankLineRejected | app.js:210-215 | an all-whitespace line, however long, splits into one empty word and is rejected |
| Quiz.DrawnQuestionShape | app.js:276-290 | a question can be drawn exactly when some eligible pair exists, and every drawn line belongs to a hero with at least six lines and has at least 15 characters, no digit and at least four non-empty, whitespace-free words |
| Quiz.ArrowDownIndex | app.js:364-370 | ArrowDown over a non-empty list lands on an item; over an empty one it changes nothing |
| Quiz.ArrowUpIndex | app.js:371-377 | ArrowUp over a non-empty list lands on an item; over an empty one it changes nothing |
| Quiz.CursorWraps | app.js:364-377 | down from the last item goes to the first, up from the first to the last, down from none to the first |
| Quiz.CursorMovesInvert | app.js:364-377 | ArrowUp undoes ArrowDown and the other way round |
| Quiz.DownPressesAdvance | app.js:364-370 | k ArrowDown presses (k at most n) move the cursor k items on, wrapping at most once |
| Quiz.DownPressesCycle | app.js:364-370 | n ArrowDown presses return to the start after visiting every item |
| Quiz.NamedIsMentioning | app.js:388-390 | a hero whose lower-cased name is exactly the query also contains the query |
| Quiz.TopMatch | app.js:384-392 | Enter with nothing highlighted: no guess for an empty trimmed value or when no hero name contains it; otherwise the first exact name match, else the first hero whose name contains it |
| Quiz.EnterGuess | app.js:380-393 | Enter guesses the highlighted suggestion when the cursor is on one, else the top match |
| Quiz.Suggestions | app.js:317-345 | no suggestions for an empty box; otherwise exactly the names of the matching heroes in list order: every suggestion names a hero whose name matches the box, and every matching hero is suggested |
| Quiz.FirstSuggestion | app.js:327-341 | for a non-empty box there is a suggestion exactly when some hero matches, and the first one, which the cursor is put on, is the name of the first matching hero in the list |
| Quiz.ScoreIsStreak | app.js:440-469 | the score is the run of correct guesses since the last wrong one, or the start score plus all guesses when none was wrong |
| Quiz.QuizSession.constructor | app.js:188-192 | the quiz starts with score 0, no question, no clip playing and an empty, enabled box with no suggestions |
| Quiz.QuizSession.Start | app.js:239-245 | starting sets the score to 0 and loads an eligible question, with an empty box, no suggestions, the cursor at -1 and no clip playing |
| Quiz.QuizSession.ClearAnswerBoxAsWritten | app.js:256-271 | the reset as written empties and enables the box and stops the clip, but keeps the old suggestions and cursor |
| Quiz.QuizSession.ClearAnswerBox | app.js:256-271 | the corrected reset also clears the suggestions and puts the cursor at -1 |
| Quiz.QuizSession.LoadNextQuestion | app.js:256-312 | the score is kept, the box is reset, and the new answer and line are an eligible pick: a valid quiz line of a hero with more than five lines |
| Quiz.QuizSession.HandleGuess | app.js:440-469 | the guess fills and disables the box and reveals the answer; the score goes up by one exactly when the guess is the answer, else to 0 |
| Quiz.QuizSession.Input | app.js:317-345 | typing rebuilds the suggestions for the new value and puts the cursor on the first one, or at -1 when there are none; when some hero matches a non-empty value the cursor is at 0 |
| Quiz.QuizSession.KeyDown | app.js:359-397 | a disabled box ignores keys; the arrows move the cursor with wrap-around; Enter guesses what `EnterGuess` yields and scores it like `handleGuess`; nothing else changes |
| Quiz.QuizSession.ToggleClip | app.js:413-424 | with a question loaded, play/pause flips the playing flag; without one, nothing happens |
| Quiz.QuizSession.StopForExplorer | app.js:154-166 | switching to the explorer leaves the reveal clip not playing |
| Quiz.QuizSession.ClipEnded | app.js:308-311 | the end of the reveal clip clears the playing flag |
| Quiz.StaleHighlightAsWritten | app.js:256-264 | after a guess picked from the list and the reset as written, Enter in the empty box guesses the previous hero again |
| Quiz.StaleHighlightCorrected | app.js:256-264 | with the corrected reset, Enter in the fresh, empty box makes no guess |
| Explorer.Player.AtMostOneHighlighted | app.js:100-133 | at most one line is highlighted at any time |
| Explorer.Player.constructor | app.js:4-5 | nothing is loaded or highlighted at the start |
| Explorer.Player.Play | app.js:100-133 | an empty source changes nothing; otherwise the clicked line becomes the only highlighted one and the slot holds its source |
| Explorer.Player.ClickLine | app.js:74-92 | a click plays the line's clip after resolving it against the wiki host |
| Explorer.Player.PlayRejected | app.js:120-123 | a failed `play()` un-highlights whatever line is current by then and changes nothing else |
| Explorer.Player.Ended | app.js:125-132 | a clip that ends clears the slot only when its line is still the current one |
| Explorer.Player.StopForQuiz | app.js:176-184 | switching to the quiz resets the current line and its highlight and keeps the audio in the slot |
| Scraper.Url | scraper.js:7-15 | every listing request goes to the listing URL; a continuation ends with its token |
| Scraper.FetchCategoryMembers | scraper.js:6-19 | the first request is the plain listing; each later request continues after the token of the previous response; the result is every member title up to the first response without a token, or a failure when the responses run out first |
| Scraper.NoLast | scraper.js:16-18 | when every response carries a token, no response ends the listing |
| Scraper.FirstLast | scraper.js:16-18 | the first response without a token ends the listing |
| Scraper.ResponseTitles | scraper.js:21 | the kept titles are exactly those that mention "Responses", in listing order, each as often as it is listed |
| Scraper.HeroName | scraper.js:40 | a title without "/Responses" is its own hero name; otherwise its first occurrence is cut out and the rest kept |
| Scraper.HeroNameOfResponsesPage | scraper.js:40 | the hero name of `name + "/Responses"` is `name`, as long as `name` does not itself contain "/Responses" |
| Scraper.MakeBatches | scraper.js:26-29 | the batches joined are the titles in order; every batch but the last holds exactly five titles and the last one to five; there are ceil(n/5) of them |
| Scraper.StripLeadingDash | scraper.js:52 | a text that does not start with an em dash after its whitespace is kept; otherwise what remains starts with no whitespace |
| Scraper.StripLeadingDashCut | scraper.js:52 | without an em dash after the leading whitespace the dash pass keeps the text; with one it cuts exactly whitespace, that em dash and whitespace from the front, leaving a text that starts with no whitespace |
| Scraper.StripLeadingDashKeeps | scraper.js:52 | the dash pass keeps every character other than whitespace and the em dash, in order |
| Scraper.CleanTranscript | scraper.js:49-52 | the cleaned text has no whitespace at either end and is never longer than the raw text |
| Scraper.CleanTranscriptKeepsSpoken | scraper.js:49-52 | the cleaning keeps every character other than whitespace, the em dash and the characters of "Link▶️", in order |
| Scraper.LinkedLineCleaned | scraper.js:49-52 | "Link▶️" and whitespace in front of a plain, trimmed text are removed, leaving exactly the text |
| Scraper.PlainTranscriptKept | scraper.js:49-52 | a trimmed text without "Link", the play sign or a leading em dash is kept as it is |
| Scraper.LeadingDashRemoved | scraper.js:52 | an em dash and whitespace in front of a line's text are removed, leaving exactly the text |
| Scraper.RecordedLines | scraper.js:43-60 | a page yields at most one line per list item |
| Scraper.RecordedLinesGood | scraper.js:43-60 | every recorded line has an audio source and a non-empty, trimmed text |
| Scraper.RecordedLinesComplete | scraper.js:43-60 | every list item with an audio source and a non-empty cleaned text gives a line |
| Scraper.RecordedLinesSound | scraper.js:43-60 | every recorded line comes from such an item, with its source and its cleaned text |
| Scraper.ItemLine | scraper.js:44-58 | one list item yields a line exactly when it has an audio source and its cleaned text is not empty |
| Scraper.ExtractLines | scraper.js:41-60 | the `each` loop collects exactly the recorded lines, in document order |
| Scraper.PageRecord | scraper.js:36-64 | a missing page yields no record; a page yields one exactly when some item gives a line, named after the title's hero and with at least one line |
| Scraper.ScrapePage | scraper.js:33-64 | the per-title callback yields exactly the page's record |
| Scraper.Records | scraper.js:32-68 | at most one record per title |
| Scraper.RecordsSound | scraper.js:40-64 | each record has lines and is named after one of the titles |
| Scraper.RecordsSnoc | scraper.js:32-64 | processing one more title appends exactly its page's record, if it has one |
| Scraper.ScrapeBatch | scraper.js:32-68 | a batch pushes exactly the records of its titles |
| Scraper.ScrapeBatches | scraper.js:28-69 | the batches one after the other push the records of all titles |
| Scraper.ScrapeAll | scraper.js:4-69 | the data file holds the records of every response title of the listing, as a multiset; a failed listing yields none |

## Left out

- Scraper.ScrapeAll: promises only the multiset of records. Within a batch, the scraper pushes records in the order their callbacks complete. The model runs the callbacks in title order.
- Scraper.FetchCategoryMembers: a failed listing request rejects `scrapeAll`. Here it is a `None` result when the given responses run out.
- Scraper.FetchCategoryMembers: the requests made are returned as `Request` values; the URL fetched for each is `Url` of it, whose contract gives the listing prefix and the continuation token.
- Scraper.HeroName: a title is used as given. `encodeURIComponent` and the page fetch are folded into the `fetchPage` parameter.
- A page whose fetch throws is treated like a page without `parse`: both yield no record.
- Writing `data.json`, the console output and `test.js` (an exploratory script) are not modelled.
- QuizLine.IsValidQuizLine: the length rule counts Unicode characters, while `text.length` counts UTF-16 code units. A line with characters outside the Basic Multilingual Plane (emoji, for instance) is longer in JavaScript than here, so a line of 8 to 14 characters holding such characters can pass the length rule in the app and fail it here.
- Text.Lower: lower-cases ASCII A–Z only, not the full Unicode mapping of `toLowerCase`. Hero names and quiz lines are English text.
- The null/undefined `text` case of `isValidQuizLine` is not modelled. Lines always carry a string.
- Quiz.QuizSession.LoadNextQuestion and Quiz.QuizSession.Start: both require that an eligible question exists (`candidates != {}`). When none does, the source's retry loop never ends for a non-empty hero list. For an empty one (`window.VOICELINE_DATA` missing, app.js:2, 15-19), `getRandomHero()` yields `undefined` (app.js:253) and reading its `lines` throws (app.js:280).
- Quiz.QuizSession.LoadNextQuestion: the random draws (hero, then up to 20 line attempts, repeated) are a nondeterministic choice among the eligible pairs. The probabilities are not modelled.
- Quiz.QuizSession.LoadNextQuestion: it uses the corrected answer-box reset (see Findings). The as-written reset is `ClearAnswerBoxAsWritten`.
- Quiz.QuizSession: the quote text and the reveal clip are derived from the current line (`Quote`, `Clip`) rather than stored.
- Quiz.QuizSession: the feedback text, confetti, button styles and `scrollIntoView` are not modelled. `revealed` stands for the feedback, the reveal area and the next-question button being shown.
- The document-level Enter shortcut for the next question (app.js:399-405) and hiding the list on an outside click (app.js:407-411) are not modelled. They only show or hide elements, or call `loadNextQuestion`, which is modelled.
- Sorting the heroes with `localeCompare` is not modelled. The heroes are taken in the order app.js has already put them.
- Rendering (`renderHeroes`, `renderVoicelines`, `showVoicelines`) and the animation classes are not modelled. Rendered lines are identified by numbers.
- Explorer.Player: pausing and rewinding audio and the timing of `play()` are not modelled. Only which source is loaded, which line is current and which lines show as playing are tracked.

## Findings

| source | as written | input that shows it | evidently intended | confidence | as-written member | corrected member |
|---|---|---|---|---|---|---|
| app.js:256-264 | `loadNextQuestion` empties the answer box and hides the autocomplete list, but leaves its items in place and does not reset `autocompleteIndex` | heroes = [Axe]; type "ax" (Axe is highlighted), press Enter, next question, press Enter in the empty box: "Axe" is guessed again | a fresh question starts with no suggestions and the cursor at -1, so Enter in an empty box makes no guess | not executed | Quiz.StaleHighlightAsWritten | Quiz.StaleHighlightCorrected |
