/**
 * The speed reader (src/app/tools/rsvp-reader/client.tsx): a word list, a
 * cursor into it and a playing flag, moved by the interval tick and by the
 * controls, plus the split of the word shown around its middle character.
 * The interval's delay of 60000 / wpm milliseconds is timing and is not
 * modelled; a tick is one step.
 */
module Rsvp {
  import opened Wrappers
  import TextExtraction
  import opened Strings

  /** `renderWord`: the part before the middle character, that character, and the rest. */
  datatype WordParts = WordParts(left: string, middle: char, right: string)

  function RenderWord(word: string): (r: Option<WordParts>)
    ensures r.None? <==> word == []
    ensures r.Some? ==>
      r.value.left + [r.value.middle] + r.value.right == word &&
      r.value.middle == word[|word| / 2] && |r.value.left| == |word| / 2
  {
    if word == [] then None
    else
      var center := |word| / 2;
      assert word[..center] + [word[center]] + word[center + 1..] == word;
      Some(WordParts(word[..center], word[center], word[center + 1..]))
  }

  /** The left and right parts differ in length by at most one, the right never being longer. */
  lemma RenderWordBalanced(word: string)
    requires word != []
    ensures var p := RenderWord(word).value;
      |p.left| - 1 <= |p.right| <= |p.left|
  {
  }

  /** `words[currentIndex] || ""`. */
  function CurrentWord(words: seq<string>, index: int): (w: string)
    ensures 0 <= index < |words| ==> w == words[index]
    ensures !(0 <= index < |words|) ==> w == ""
  {
    if 0 <= index < |words| then words[index] else ""
  }

  class Reader {
    var words: seq<string>
    var index: int
    var playing: bool
    var wpm: int

    constructor ()
      ensures words == [] && index == 0 && !playing && wpm == 300
      ensures Valid()
    {
      words, index, playing, wpm := [], 0, false, 300;
    }

    /** With words loaded, the cursor is on one of them. */
    predicate Valid()
      reads this
    {
      words != [] ==> 0 <= index < |words|
    }

    /**
     * `handleDrop`: an empty extraction is rejected and changes nothing;
     * otherwise the words replace the list, at the first word, paused.
     */
    method Load(extracted: seq<string>) returns (accepted: bool)
      requires Valid()
      modifies this
      ensures accepted <==> extracted != []
      ensures accepted ==> words == extracted && index == 0 && !playing
      ensures !accepted ==> words == old(words) && index == old(index) && playing == old(playing)
      ensures wpm == old(wpm)
      ensures Valid()
    {
      if |extracted| == 0 {
        return false;
      }
      words, index, playing := extracted, 0, false;
      return true;
    }

    /**
     * `handleDrop` on a document whose pages hold the given text items: the
     * extracted list is never empty, so the document is always accepted and
     * the rejection branch of `Load` is never taken from here. A document
     * without text loads the single empty word.
     */
    method HandleDrop(pages: seq<seq<string>>) returns (accepted: bool)
      requires Valid()
      modifies this
      ensures accepted
      ensures words == TextExtraction.Normalise(TextExtraction.AllText(pages))
      ensures Blank(TextExtraction.AllText(pages)) ==> words == [""]
      ensures index == 0 && !playing && wpm == old(wpm)
      ensures Valid()
    {
      var extracted := TextExtraction.ExtractText(pages);
      TextExtraction.NormaliseWords(TextExtraction.AllText(pages));
      accepted := Load(extracted);
    }

    /**
     * `handleDrop` with the check it evidently means: a document without any
     * text, whose only word is the empty string, is rejected; an accepted
     * document has no empty word.
     */
    method HandleDropChecked(pages: seq<seq<string>>) returns (accepted: bool)
      requires Valid()
      modifies this
      ensures accepted <==> !Blank(TextExtraction.AllText(pages))
      ensures accepted ==> words == TextExtraction.Normalise(TextExtraction.AllText(pages)) && index == 0 && !playing
      ensures accepted ==> forall k :: 0 <= k < |words| ==> words[k] != ""
      ensures !accepted ==> words == old(words) && index == old(index) && playing == old(playing)
      ensures wpm == old(wpm)
      ensures Valid()
    {
      var extracted := TextExtraction.ExtractText(pages);
      TextExtraction.NormaliseWords(TextExtraction.AllText(pages));
      if extracted == [""] {
        extracted := [];
      }
      accepted := Load(extracted);
    }

    /** "Open different file": the list is emptied and the dropzone comes back. */
    method Unload()
      modifies this
      ensures words == [] && index == old(index) && playing == old(playing) && wpm == old(wpm)
      ensures Valid()
    {
      words := [];
    }

    /** Whether the interval runs. */
    predicate Running()
      reads this
    {
      playing && index < |words|
    }

    /** One interval tick: the next word, or at the last word stop there. */
    method Tick()
      requires Valid()
      modifies this
      ensures !old(Running()) ==> index == old(index) && playing == old(playing)
      ensures old(Running()) && old(index) < |words| - 1 ==> index == old(index) + 1 && playing
      ensures old(Running()) && old(index) >= |words| - 1 ==> index == old(index) && !playing
      ensures words == old(words) && wpm == old(wpm)
      ensures Valid()
    {
      if !Running() {
        return;
      }
      if index >= |words| - 1 {
        playing := false;
      } else {
        index := index + 1;
      }
    }

    method TogglePlay()
      modifies this
      ensures playing == !old(playing)
      ensures words == old(words) && index == old(index) && wpm == old(wpm)
    {
      playing := !playing;
    }

    /** The reset button. */
    method Reset()
      requires Valid()
      modifies this
      ensures !playing && index == 0
      ensures words == old(words) && wpm == old(wpm)
      ensures Valid()
    {
      playing, index := false, 0;
    }

    /** Back ten words, not before the first. */
    method Rewind()
      requires Valid()
      modifies this
      ensures index == if old(index) - 10 >= 0 then old(index) - 10 else 0
      ensures words == old(words) && playing == old(playing) && wpm == old(wpm)
      ensures Valid()
    {
      index := if index - 10 >= 0 then index - 10 else 0;
    }

    /** Forward ten words, not past the last; the button is shown only while words are loaded. */
    method FastForward()
      requires Valid() && words != []
      modifies this
      ensures index == if old(index) + 10 <= |words| - 1 then old(index) + 10 else |words| - 1
      ensures words == old(words) && playing == old(playing) && wpm == old(wpm)
      ensures Valid()
    {
      index := if index + 10 <= |words| - 1 then index + 10 else |words| - 1;
    }

    /** The progress slider, whose range is 0..|words|-1: pauses and jumps. */
    method Scrub(position: int)
      requires Valid() && 0 <= position < |words|
      modifies this
      ensures index == position && !playing
      ensures words == old(words) && wpm == old(wpm)
      ensures Valid()
    {
      playing, index := false, position;
    }

    method SetWpm(value: int)
      modifies this
      ensures wpm == value
      ensures words == old(words) && index == old(index) && playing == old(playing)
    {
      wpm := value;
    }
  }

  /**
   * Playing from a word runs through every following word: after as many
   * ticks as words remain, the reader is stopped on the last word.
   */
  method PlayToEnd(r: Reader)
    requires r.Valid() && r.words != [] && r.playing
    modifies r
    ensures r.index == |r.words| - 1 && !r.playing
    ensures r.words == old(r.words)
  {
    var remaining := |r.words| - r.index;
    while remaining > 0
      invariant r.Valid() && r.words == old(r.words)
      invariant r.playing ==> remaining == |r.words| - r.index
      invariant !r.playing ==> r.index == |r.words| - 1
      invariant remaining >= 0
      decreases remaining
    {
      r.Tick();
      remaining := remaining - 1;
    }
  }
}
