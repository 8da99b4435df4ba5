/** The records the scraper writes to data.json and the browser loads as
    `window.VOICELINE_DATA`: one record per hero with its voice lines. */
module Dataset {
  import opened Text

  /** One voice line: where its clip is and what is said. */
  datatype Line = Line(audio: String, text: String)

  /** `{ hero, lines }` */
  datatype HeroRecord = HeroRecord(hero: String, lines: seq<Line>)

  /** The hero names of a list of records, in order. */
  function Names(heroes: seq<HeroRecord>): (r: seq<String>)
    ensures |r| == |heroes|
    ensures forall i :: 0 <= i < |heroes| ==> r[i] == heroes[i].hero
  {
    seq(|heroes|, i requires 0 <= i < |heroes| => heroes[i].hero)
  }
}
