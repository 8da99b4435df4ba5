/** The explorer's voice-line player in app.js: one audio slot shared by
    every rendered line, the item that is highlighted while it plays, and the
    quiz-mode button that silences it.  Rendered line items are identified by
    numbers; a re-render makes new items. */
module Explorer {
  import opened Seqs
  import opened Text
  import opened Search

  type Item = nat

  class Player {
    /** `currentAudio`, by its source. */
    var currentAudio: Option<String>
    /** `playingItem` */
    var playingItem: Option<Item>
    /** Items carrying the `playing` class. */
    var highlighted: set<Item>
    /** Items whose button shows the pause icon. */
    var pauseIcon: set<Item>

    /** Only the current item can be highlighted or show the pause icon, and
        there is no current item without an audio. */
    ghost predicate Valid()
      reads this
    {
      && (playingItem.Some? ==> currentAudio.Some?)
      && highlighted <= pauseIcon
      && (playingItem.None? ==> pauseIcon == {})
      && (playingItem.Some? ==> pauseIcon <= {playingItem.value})
    }

    /** At most one line is highlighted at any time. */
    lemma AtMostOneHighlighted()
      requires Valid()
      ensures |highlighted| <= 1
      ensures forall a, b :: a in highlighted && b in highlighted ==> a == b
    {
      if playingItem.Some? {
        SubsetOfSingleton(highlighted, playingItem.value);
      }
    }

    static lemma SubsetOfSingleton(s: set<Item>, x: Item)
      requires s <= {x}
      ensures |s| <= 1
    {
      if s != {} {
        assert s == {x};
      }
    }

    constructor ()
      ensures Valid()
      ensures currentAudio.None? && playingItem.None?
      ensures highlighted == {} && pauseIcon == {}
    {
      currentAudio := None;
      playingItem := None;
      highlighted := {};
      pauseIcon := {};
    }

    /** `playAudio(src, item)`: an empty source does nothing; otherwise the
        previous audio is stopped and its item reset, and `item` becomes the
        only highlighted item, playing `src`. */
    method Play(src: String, item: Item)
      requires Valid()
      modifies this
      ensures Valid()
      ensures src == [] ==> unchanged(this)
      ensures src != [] ==> && currentAudio == Some(src)
                            && playingItem == Some(item)
                            && highlighted == {item} && pauseIcon == {item}
    {
      if src == [] {
        return;
      }
      if currentAudio.Some? && playingItem.Some? {
        highlighted := highlighted - {playingItem.value};
        pauseIcon := pauseIcon - {playingItem.value};
      }
      currentAudio := Some(src);
      playingItem := Some(item);
      highlighted := highlighted + {item};
      pauseIcon := pauseIcon + {item};
    }

    /** A click on a rendered line: its clip URL, resolved against the wiki
        when it is site-relative, goes to `playAudio`. */
    method ClickLine(audio: String, item: Item)
      requires Valid()
      modifies this
      ensures Valid()
      ensures audio == [] ==> unchanged(this)
      ensures audio != [] ==> && currentAudio == Some(ResolveAudio(audio))
                              && playingItem == Some(item)
                              && highlighted == {item} && pauseIcon == {item}
    {
      Play(ResolveAudio(audio), item);
    }

    /** The rejection handler of `play()`: it runs later and un-highlights
        whatever item is current by then, without resetting its icon or
        the slot.  With no current item it fails and changes nothing. */
    method PlayRejected()
      requires Valid()
      modifies this`highlighted
      ensures Valid()
      ensures highlighted == if old(playingItem).Some? then old(highlighted) - {old(playingItem).value} else old(highlighted)
    {
      if playingItem.Some? {
        highlighted := highlighted - {playingItem.value};
      }
    }

    /** The `onended` handler of the audio started for `item`: the slot is
        cleared only if `item` is still the current one. */
    method Ended(item: Item)
      requires Valid()
      modifies this
      ensures Valid()
      ensures old(playingItem) == Some(item) ==>
                currentAudio.None? && playingItem.None? && highlighted == {} && pauseIcon == {}
      ensures old(playingItem) != Some(item) ==> unchanged(this)
    {
      if playingItem == Some(item) {
        highlighted := highlighted - {item};
        pauseIcon := pauseIcon - {item};
        playingItem := None;
        currentAudio := None;
      }
    }

    /** Switching to the quiz: a loaded audio is paused and rewound (not
        modelled) and the item reset; the audio itself stays in the slot. */
    method StopForQuiz()
      requires Valid()
      modifies this
      ensures Valid()
      ensures currentAudio == old(currentAudio)
      ensures old(currentAudio).Some? ==> playingItem.None? && highlighted == {} && pauseIcon == {}
      ensures old(currentAudio).None? ==> unchanged(this)
    {
      if currentAudio.Some? {
        if playingItem.Some? {
          highlighted := highlighted - {playingItem.value};
          pauseIcon := pauseIcon - {playingItem.value};
        }
        playingItem := None;
      }
    }
  }
}
