/** `scrapeAll` in scraper.js: the wiki's category listing is paged through,
    the response pages are picked out, processed five at a time, and every
    page with at least one usable voice line becomes a hero record.  The
    network and the HTML parser are inputs: the listing responses in the
    order they arrive, and, per page title, the parsed list items (`None`
    when the page is missing from the parse result or its fetch fails). */
module Scraper {
  import opened Seqs
  import opened Text
  import opened Dataset

  // ------------------------------------------------------------ listing

  /** One response of the category listing: the titles of its
      `categorymembers` and its `continue.cmcontinue` token, if any. */
  datatype Listing = Listing(members: seq<String>, cont: Option<String>)

  const ListUrl: String := "https://dota2.fandom.com/api.php?action=query&list=categorymembers&cmtitle=Category:Responses&cmlimit=500&format=json"

  /** A listing request: the first one, or the one continuing after a token. */
  datatype Request = First | After(token: String)

  /** The URL fetched for a request; a continuation appends
      `&cmcontinue=` and the token. */
  function Url(q: Request): (r: String)
    ensures StartsWith(r, ListUrl)
    ensures q.After? ==> EndsWith(r, q.token)
  {
    match q
    case First => ListUrl
    case After(token) =>
      var r := ListUrl + "&cmcontinue=" + token;
      assert r[..|ListUrl|] == ListUrl;
      assert r[|r| - |token|..] == token;
      r
  }

  /** The response ends the listing. */
  predicate IsLast(l: Listing)
  {
    l.cont.None?
  }

  /** The member titles of these responses, in order. */
  function AllMembers(rs: seq<Listing>): (r: seq<String>)
    decreases |rs|
  {
    if rs == [] then [] else AllMembers(rs[..|rs| - 1]) + rs[|rs| - 1].members
  }

  /** The pagination loop.  It asks for the listing, then keeps asking with
      the last token for as long as a response carries one.  `requests`
      are the requests made, in order (request `k` fetches
      `Url(requests[k])`); the result is every member title of the
      responses up to and including the first without a token.  Should the
      given responses run out first, the listing has failed and the result
      is `None`. */
  method FetchCategoryMembers(responses: seq<Listing>) returns (pages: Option<seq<String>>, requests: seq<Request>)
    ensures Find(responses, IsLast).None? <==> pages.None?
    ensures Find(responses, IsLast).Some? ==>
              var last := Find(responses, IsLast).value;
              pages == Some(AllMembers(responses[..last + 1])) && |requests| == last + 1
    ensures pages.None? ==> |requests| == |responses|
    ensures |requests| > 0 ==> requests[0] == First
    ensures forall k :: 0 < k < |requests| ==> responses[k - 1].cont.Some? && requests[k] == After(responses[k - 1].cont.value)
  {
    var acc: seq<String> := [];
    requests := [];
    var next := First;
    var hasMore := true;
    var i := 0;
    while hasMore
      invariant 0 <= i <= |responses|
      invariant |requests| == i
      invariant acc == AllMembers(responses[..i])
      invariant forall k :: 0 <= k < i - 1 ==> responses[k].cont.Some?
      invariant hasMore ==> forall k :: 0 <= k < i ==> responses[k].cont.Some?
      invariant !hasMore ==> i > 0 && responses[i - 1].cont.None?
      invariant hasMore ==> next == if i == 0 then First else After(responses[i - 1].cont.value)
      invariant |requests| > 0 ==> requests[0] == First
      invariant forall k :: 0 < k < i ==> responses[k - 1].cont.Some? && requests[k] == After(responses[k - 1].cont.value)
      decreases |responses| - i, hasMore
    {
      if i == |responses| {
        NoLast(responses);
        pages := None;
        return;
      }
      var data := responses[i];
      requests := requests + [next];
      assert responses[..i + 1][..i] == responses[..i];
      acc := acc + data.members;
      match data.cont {
        case Some(token) =>
          next := After(token);
        case None =>
          hasMore := false;
      }
      i := i + 1;
    }
    FirstLast(responses, i);
    pages := Some(acc);
  }

  /** No response ends the listing when every one carries a token. */
  lemma NoLast(rs: seq<Listing>)
    requires forall k :: 0 <= k < |rs| ==> rs[k].cont.Some?
    ensures Find(rs, IsLast).None?
  {
  }

  /** The first response without a token is the one at `n - 1` when all
      before it carry one. */
  lemma FirstLast(rs: seq<Listing>, n: nat)
    requires 0 < n <= |rs| && rs[n - 1].cont.None?
    requires forall k :: 0 <= k < n - 1 ==> rs[k].cont.Some?
    ensures Find(rs, IsLast) == Some(n - 1)
  {
    assert IsLast(rs[n - 1]);
  }

  // ------------------------------------------------------------ titles

  predicate IsResponsesTitle(t: String)
  {
    Contains(t, "Responses")
  }

  /** `pages.map(p => p.title).filter(t => t.includes('Responses'))`: the
      titles mentioning "Responses", in listing order. */
  function ResponseTitles(pages: seq<String>): (r: seq<String>)
    ensures IsSubsequence(r, pages)
    ensures forall t :: t in r <==> t in pages && Contains(t, "Responses")
    ensures forall t :: t in pages ==> multiset(r)[t] == if Contains(t, "Responses") then multiset(pages)[t] else 0
  {
    FilterMembers(pages, IsResponsesTitle);
    FilterCounts(pages, IsResponsesTitle);
    Filter(pages, IsResponsesTitle)
  }

  /** The part of a title that names the hero's page. */
  const Marker: String := "/Responses"

  /** `title.replace('/Responses', '')`: the first occurrence only is cut out. */
  function HeroName(title: String): (r: String)
    ensures !Contains(title, Marker) ==> r == title
    ensures Contains(title, Marker) ==> var i := IndexOf(title, Marker).value; r == title[..i] + title[i + |Marker|..]
    ensures Contains(title, Marker) ==> |r| == |title| - |Marker|
  {
    ReplaceFirst(title, Marker, "")
  }

  /** The marker cannot start partway into itself: only its first character
      is a `/`, so it never overlaps a second copy. */
  lemma MarkerAfterName(name: String, j: int)
    requires !Contains(name, Marker) && 0 <= j < |name|
    ensures !OccursAt(name + Marker, Marker, j)
  {
    var s := name + Marker;
    if j + |Marker| <= |name| {
      if OccursAt(s, Marker, j) {
        assert s[j..j + |Marker|] == name[j..j + |Marker|];
        ContainsOccurs(name, Marker, j);
      }
    } else if j + |Marker| <= |s| {
      var d := |name| - j;
      assert s[j..j + |Marker|][d] == '/' != Marker[d];
    }
  }

  /** The page of hero `name` is titled `name + "/Responses"`, and its hero
      name is recovered as long as `name` does not itself contain the marker. */
  lemma {:induction false} HeroNameOfResponsesPage(name: String)
    requires !Contains(name, Marker)
    ensures HeroName(name + Marker) == name
  {
    var s := name + Marker;
    assert s[|name|..|name| + |Marker|] == Marker;
    ContainsOccurs(s, Marker, |name|);
    var i := IndexOf(s, Marker).value;
    if i < |name| {
      MarkerAfterName(name, i);
    }
    assert s[..|name|] == name;
  }

  // ----------------------------------------------------------- batches

  const BatchSize: nat := 5

  /** The `for (i = 0; i < titles.length; i += batchSize)` loop with
      `titles.slice(i, i + batchSize)`: consecutive batches that together are
      the titles in order, every one but the last exactly five long, none
      empty, ⌈n/5⌉ of them. */
  method MakeBatches(titles: seq<String>) returns (batches: seq<seq<String>>)
    ensures Flatten(batches) == titles
    ensures forall b :: b in batches ==> 0 < |b| <= BatchSize
    ensures |batches| == (|titles| + BatchSize - 1) / BatchSize
    ensures forall k :: 0 <= k < |batches| - 1 ==> |batches[k]| == BatchSize
  {
    batches := [];
    var i := 0;
    while i < |titles|
      invariant i == BatchSize * |batches|
      invariant i <= |titles| ==> Flatten(batches) == titles[..i]
      invariant i > |titles| ==> Flatten(batches) == titles
      invariant |batches| > 0 ==> i - BatchSize < |titles|
      invariant forall b :: b in batches ==> 0 < |b| <= BatchSize
      invariant i <= |titles| ==> forall k :: 0 <= k < |batches| ==> |batches[k]| == BatchSize
      invariant forall k :: 0 <= k < |batches| - 1 ==> |batches[k]| == BatchSize
      decreases |titles| - i
    {
      var end := if i + BatchSize <= |titles| then i + BatchSize else |titles|;
      var batch := titles[i..end];
      FlattenAppend(batches, [batch]);
      assert Flatten([batch]) == batch by {
        var none: seq<seq<String>> := [];
        assert [batch][..0] == none;
      }
      PrefixThenSlice(titles, i, end);
      if end == |titles| {
        assert titles[..end] == titles;
      }
      batches := batches + [batch];
      i := i + BatchSize;
    }
    if i <= |titles| {
      assert titles[..i] == titles;
    }
  }

  // ----------------------------------------------------- transcript text

  const LinkPlay: String := "Link\U{25B6}\U{FE0F}"
  const PlaySign: String := "\U{25B6}\U{FE0F}"
  const EmDash: char := '\U{2014}'

  /** The leading-dash regular expression: an em dash at the start, with any whitespace
      around it, is dropped; without one the text is left as it is. */
  function StripLeadingDash(s: String): (r: String)
    ensures |r| <= |s|
    ensures (TrimStart(s) == [] || TrimStart(s)[0] != EmDash) ==> r == s
    ensures TrimStart(s) != [] && TrimStart(s)[0] == EmDash ==> r == [] || !IsSpace(r[0])
  {
    var u := TrimStart(s);
    if u != [] && u[0] == EmDash then TrimStart(u[1..]) else s
  }

  /** The cleaning of a list item's text: every "Link▶️", then every "Link",
      then every "▶️" is removed, the result trimmed, a leading em dash
      stripped, and trimmed again. */
  function CleanTranscript(text: String): (r: String)
    ensures Trimmed(r)
    ensures |r| <= |text|
  {
    var t := Trim(RemoveAll(RemoveAll(RemoveAll(text, LinkPlay), "Link"), PlaySign));
    Trim(StripLeadingDash(t))
  }

  /** Without an em dash after the leading whitespace the dash pass cuts
      nothing; with one it cuts exactly whitespace, that dash and the
      whitespace after it, so what remains starts with no whitespace. */
  lemma StripLeadingDashCut(s: String)
    ensures TrimStart(s) == [] || TrimStart(s)[0] != EmDash ==> StripLeadingDash(s) == s
    ensures TrimStart(s) != [] && TrimStart(s)[0] == EmDash ==>
              exists a, b :: AllSpace(a) && AllSpace(b) && s == a + [EmDash] + b + StripLeadingDash(s)
                             && (StripLeadingDash(s) == [] || !IsSpace(StripLeadingDash(s)[0]))
  {
    var u := TrimStart(s);
    if u != [] && u[0] == EmDash {
      var v := u[1..];
      var r := TrimStart(v);
      var a := TrimStartSplit(s);
      var b := TrimStartSplit(v);
      DashPieces(s, a, u, b, r);
      assert r == StripLeadingDash(s);
    }
  }

  lemma DashPieces(s: String, a: String, u: String, b: String, r: String)
    requires s == a + u && u != [] && u[0] == EmDash && u[1..] == b + r
    ensures s == a + [EmDash] + b + r
  {
    assert u == [EmDash] + u[1..];
  }

  /** The dash pass keeps every character other than whitespace and the em dash. */
  lemma StripLeadingDashKeeps(s: String, q: char -> bool)
    requires forall c :: q(c) ==> !IsSpace(c)
    requires !q(EmDash)
    ensures Filter(StripLeadingDash(s), q) == Filter(s, q)
  {
    var u := TrimStart(s);
    if u != [] && u[0] == EmDash {
      TrimStartKeeps(s, q);
      assert u == [EmDash] + u[1..];
      FilterCons(EmDash, u[1..], q);
      TrimStartKeeps(u[1..], q);
    }
  }

  /** What the cleaning may remove: whitespace, the em dash, and the
      characters of "Link▶️". */
  predicate Spoken(c: char)
  {
    !IsSpace(c) && c != EmDash && c !in LinkPlay
  }

  /** The cleaning keeps every other character of the text, in order. */
  lemma CleanTranscriptKeepsSpoken(text: String)
    ensures Filter(CleanTranscript(text), Spoken) == Filter(text, Spoken)
  {
    var a := RemoveAll(text, LinkPlay);
    var b := RemoveAll(a, "Link");
    var c := RemoveAll(b, PlaySign);
    var t := Trim(c);
    assert forall x :: Spoken(x) ==> Outside(LinkPlay)(x) && Outside("Link")(x) && Outside(PlaySign)(x);
    RemoveAllKeepsOthers(text, LinkPlay);
    FilterOfFilter(a, Outside(LinkPlay), Spoken);
    FilterOfFilter(text, Outside(LinkPlay), Spoken);
    RemoveAllKeepsOthers(a, "Link");
    FilterOfFilter(b, Outside("Link"), Spoken);
    FilterOfFilter(a, Outside("Link"), Spoken);
    RemoveAllKeepsOthers(b, PlaySign);
    FilterOfFilter(c, Outside(PlaySign), Spoken);
    FilterOfFilter(b, Outside(PlaySign), Spoken);
    TrimKeeps(c, Spoken);
    StripLeadingDashKeeps(t, Spoken);
    TrimKeeps(StripLeadingDash(t), Spoken);
  }

  /** The wiki's shape: the play button's "Link▶️" in front of the spoken
      text, with whitespace between.  The cleaning leaves just the text. */
  lemma LinkedLineCleaned(gap: String, body: String)
    requires AllSpace(gap) && body != [] && Trimmed(body) && body[0] != EmDash
    requires !Contains(gap + body, "Link") && !Contains(gap + body, PlaySign)
    ensures CleanTranscript(LinkPlay + (gap + body)) == body
  {
    var t := gap + body;
    RemoveAllPrefix(LinkPlay, t);
    assert LinkPlay == "Link" + PlaySign;
    if Contains(t, LinkPlay) {
      ContainsPrefixOf(t, "Link", PlaySign);
    }
    RemoveAllAbsent(t, LinkPlay);
    RemoveAllAbsent(t, "Link");
    RemoveAllAbsent(t, PlaySign);
    TrimStartAfterSpace(gap, body);
    TrimStartNonSpace(body);
    TrimTrimmed(body);
    assert Trim(t) == body;
    assert StripLeadingDash(body) == body;
  }

  /** A trimmed text without the link residue or a leading dash is kept as
      it is. */
  lemma PlainTranscriptKept(text: String)
    requires Trimmed(text) && !Contains(text, "Link") && !Contains(text, PlaySign)
    requires text == [] || text[0] != EmDash
    ensures CleanTranscript(text) == text
  {
    assert LinkPlay == "Link" + PlaySign;
    if Contains(text, LinkPlay) {
      ContainsPrefixOf(text, "Link", PlaySign);
    }
    RemoveAllAbsent(text, LinkPlay);
    RemoveAllAbsent(text, "Link");
    RemoveAllAbsent(text, PlaySign);
    TrimTrimmed(text);
  }

  /** "— " and the like in front of a line's text are removed. */
  lemma {:induction false} LeadingDashRemoved(gap: String, body: String)
    requires AllSpace(gap) && body != [] && Trimmed(body)
    requires !Contains([EmDash] + (gap + body), "Link") && !Contains([EmDash] + (gap + body), PlaySign)
    ensures CleanTranscript([EmDash] + (gap + body)) == body
    decreases |gap|
  {
    var text := [EmDash] + (gap + body);
    assert LinkPlay == "Link" + PlaySign;
    if Contains(text, LinkPlay) {
      ContainsPrefixOf(text, "Link", PlaySign);
    }
    RemoveAllAbsent(text, LinkPlay);
    RemoveAllAbsent(text, "Link");
    RemoveAllAbsent(text, PlaySign);
    assert Trimmed(text) by {
      assert text[|text| - 1] == body[|body| - 1];
    }
    TrimTrimmed(text);
    TrimStartAfterSpace(gap, body);
    TrimStartNonSpace(body);
    assert text[1..] == gap + body;
    assert StripLeadingDash(text) == body;
    TrimTrimmed(body);
  }

  // --------------------------------------------------------- lines, records

  /** A parsed `<li>`: the `src` of its `audio source`, if any, and its text. */
  datatype ListItem = ListItem(audio: Option<String>, text: String)

  /** `if (audioSrc)`: present and not the empty string. */
  predicate HasAudio(item: ListItem)
  {
    item.audio.Some? && item.audio.value != []
  }

  /** A line is recorded for an item with an audio source whose cleaned text
      is not empty. */
  predicate Recorded(item: ListItem)
  {
    HasAudio(item) && CleanTranscript(item.text) != []
  }

  function LineOf(item: ListItem): Line
    requires HasAudio(item)
  {
    Line(item.audio.value, CleanTranscript(item.text))
  }

  /** What every recorded line satisfies: an audio source and a non-empty,
      trimmed text. */
  predicate GoodLine(l: Line)
  {
    l.audio != [] && l.text != [] && Trimmed(l.text)
  }

  lemma LineOfRecorded(item: ListItem)
    requires Recorded(item)
    ensures GoodLine(LineOf(item))
  {
  }

  /** The lines a page yields, in document order. */
  function RecordedLines(items: seq<ListItem>): (r: seq<Line>)
    ensures |r| <= |items|
    decreases |items|
  {
    if items == [] then []
    else
      var last := items[|items| - 1];
      RecordedLines(items[..|items| - 1]) + if Recorded(last) then [LineOf(last)] else []
  }

  /** Every recorded line has an audio source and a non-empty, trimmed text. */
  lemma {:induction false} RecordedLinesGood(items: seq<ListItem>)
    ensures forall k :: 0 <= k < |RecordedLines(items)| ==> GoodLine(RecordedLines(items)[k])
    decreases |items|
  {
    if items != [] {
      var last := items[|items| - 1];
      RecordedLinesGood(items[..|items| - 1]);
      if Recorded(last) {
        LineOfRecorded(last);
      }
    }
  }

  /** Every item with an audio source and a non-empty cleaned text gives a line. */
  lemma {:induction false} RecordedLinesComplete(items: seq<ListItem>)
    ensures forall item :: item in items && Recorded(item) ==> LineOf(item) in RecordedLines(items)
    decreases |items|
  {
    if items != [] {
      var init := items[..|items| - 1];
      RecordedLinesComplete(init);
      assert items == init + [items[|items| - 1]];
    }
  }

  /** Every line comes from such an item. */
  lemma {:induction false} RecordedLinesSound(items: seq<ListItem>)
    ensures forall l :: l in RecordedLines(items) ==> exists item :: item in items && Recorded(item) && l == LineOf(item)
    decreases |items|
  {
    if items != [] {
      var init := items[..|items| - 1];
      RecordedLinesSound(init);
      assert items == init + [items[|items| - 1]];
    }
  }

  lemma RecordedLinesStep(items: seq<ListItem>, i: nat)
    requires i < |items|
    ensures RecordedLines(items[..i + 1])
         == RecordedLines(items[..i]) + if Recorded(items[i]) then [LineOf(items[i])] else []
  {
    assert items[..i + 1][..i] == items[..i];
  }

  /** The callback of the `$('li').each` loop for one item: the line it
      pushes, if any. */
  method ItemLine(item: ListItem) returns (line: Option<Line>)
    ensures line.Some? <==> Recorded(item)
    ensures line.Some? ==> line.value == LineOf(item) && GoodLine(line.value)
  {
    if item.audio.Some? && item.audio.value != [] {
      var text := CleanTranscript(item.text);
      if |text| > 0 {
        return Some(Line(item.audio.value, text));
      }
    }
    return None;
  }

  /** The `$('li').each` loop pushing into `heroLines`. */
  method ExtractLines(items: seq<ListItem>) returns (heroLines: seq<Line>)
    ensures heroLines == RecordedLines(items)
  {
    heroLines := [];
    for i := 0 to |items|
      invariant heroLines == RecordedLines(items[..i])
    {
      RecordedLinesStep(items, i);
      var line := ItemLine(items[i]);
      if line.Some? {
        heroLines := heroLines + [line.value];
      }
    }
    assert items[..|items|] == items;
  }

  /** The record a page yields: none for a missing page or one without a
      usable line, else the hero name and its lines. */
  function PageRecord(title: String, parse: Option<seq<ListItem>>): (r: Option<HeroRecord>)
    ensures parse.None? ==> r.None?
    ensures parse.Some? ==> (r.Some? <==> exists item :: item in parse.value && Recorded(item))
    ensures r.Some? ==> r.value.hero == HeroName(title) && r.value.lines != []
  {
    if parse.None? then None
    else
      var lines := RecordedLines(parse.value);
      if |lines| > 0 then
        RecordedLinesSound(parse.value);
        assert lines[0] in lines;
        Some(HeroRecord(HeroName(title), lines))
      else
        RecordedLinesComplete(parse.value);
        None
  }

  /** The body of the per-title callback in a batch. */
  method ScrapePage(title: String, parse: Option<seq<ListItem>>) returns (record: Option<HeroRecord>)
    ensures record == PageRecord(title, parse)
  {
    if parse.None? {
      return None;
    }
    var heroName := HeroName(title);
    var heroLines := ExtractLines(parse.value);
    if |heroLines| > 0 {
      record := Some(HeroRecord(heroName, heroLines));
    } else {
      record := None;
    }
  }

  /** Fetching and processing one title. */
  function RecordOf(fetchPage: String -> Option<seq<ListItem>>): String -> Option<HeroRecord>
  {
    title => PageRecord(title, fetchPage(title))
  }

  /** The records of these titles, in title order. */
  function Records(titles: seq<String>, fetchPage: String -> Option<seq<ListItem>>): (r: seq<HeroRecord>)
    ensures |r| <= |titles|
  {
    Collect(titles, RecordOf(fetchPage))
  }

  /** Every record has lines and is named after one of the titles. */
  lemma RecordsSound(titles: seq<String>, fetchPage: String -> Option<seq<ListItem>>)
    ensures forall rec :: rec in Records(titles, fetchPage) ==>
              rec.lines != [] && exists t :: t in titles && rec.hero == HeroName(t)
  {
    CollectSound(titles, RecordOf(fetchPage));
  }

  /** One more title adds its record, if it has one, at the end. */
  lemma RecordsSnoc(titles: seq<String>, t: nat, fetchPage: String -> Option<seq<ListItem>>, record: Option<HeroRecord>)
    requires t < |titles| && record == PageRecord(titles[t], fetchPage(titles[t]))
    ensures Records(titles[..t + 1], fetchPage)
         == Records(titles[..t], fetchPage) + if record.Some? then [record.value] else []
  {
    assert titles[..t + 1][..t] == titles[..t];
  }

  /** One batch: the callback for every title in it, each pushing the record it
      finds.  The callbacks run concurrently in the scraper; here they run in title
      order. */
  method ScrapeBatch(batch: seq<String>, fetchPage: String -> Option<seq<ListItem>>)
    returns (found: seq<HeroRecord>)
    ensures found == Records(batch, fetchPage)
  {
    found := [];
    for t := 0 to |batch|
      invariant found == Records(batch[..t], fetchPage)
    {
      var title := batch[t];
      var record := ScrapePage(title, fetchPage(title));
      RecordsSnoc(batch, t, fetchPage, record);
      if record.Some? {
        found := found + [record.value];
      }
    }
    assert batch[..|batch|] == batch;
  }

  /** The batches one after another, each waited for before the next. */
  method ScrapeBatches(batches: seq<seq<String>>, fetchPage: String -> Option<seq<ListItem>>)
    returns (records: seq<HeroRecord>)
    ensures records == Records(Flatten(batches), fetchPage)
  {
    records := [];
    for b := 0 to |batches|
      invariant records == Records(Flatten(batches[..b]), fetchPage)
    {
      var found := ScrapeBatch(batches[b], fetchPage);
      FlattenAppend(batches[..b], [batches[b]]);
      assert batches[..b + 1] == batches[..b] + [batches[b]];
      assert Flatten([batches[b]]) == batches[b] by {
        var none: seq<seq<String>> := [];
        assert [batches[b]][..0] == none;
      }
      CollectAppend(Flatten(batches[..b]), batches[b], RecordOf(fetchPage));
      records := records + found;
    }
    assert batches[..|batches|] == batches;
  }

  /** `scrapeAll` up to the file write: the listing, the title filter, the
      batches one after another, and every page's record.  Within a batch
      records are pushed as their callbacks complete, so only the multiset of
      records is promised, not their order. */
  method ScrapeAll(responses: seq<Listing>, fetchPage: String -> Option<seq<ListItem>>)
    returns (db: Option<seq<HeroRecord>>)
    ensures db.None? <==> Find(responses, IsLast).None?
    ensures db.Some? ==>
              var titles := ResponseTitles(AllMembers(responses[..Find(responses, IsLast).value + 1]));
              multiset(db.value) == multiset(Records(titles, fetchPage))
  {
    var pages, requests := FetchCategoryMembers(responses);
    if pages.None? {
      return None;
    }
    var titles := ResponseTitles(pages.value);
    var batches := MakeBatches(titles);
    var records := ScrapeBatches(batches, fetchPage);
    db := Some(records);
  }
}
