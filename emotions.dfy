/** The emotion classifier `detectEmotion` (script.js:139-147): the dialogue
    is lower-cased and tested for a fixed set of markers per emotion, the
    first emotion in a fixed order whose markers occur winning. */
module Emotions {

  import opened Strings

  datatype Emotion = Happy | Sad | Angry | Nervous | Romantic | Neutral

  /** The glyph markers exactly as the source file spells them: each is the
      UTF-8 encoding of an emoji read back as Mac Roman text (U+F8FF, ü, ò,
      ... ), so they are opaque strings here. */
  const HappyGlyph := "\U{F8FF}\U{00FC}\U{00F2}\U{00E4}"
  const SadGlyph := "\U{F8FF}\U{00FC}\U{00F2}\U{00A2}"
  const AngryGlyph := "\U{F8FF}\U{00FC}\U{00F2}\U{2020}"
  const NervousGlyph := "\U{F8FF}\U{00FC}\U{00F2}\U{221E}"
  const LoveGlyph := "\U{201A}\U{00F9}\U{00A7}"

  /** `detectEmotion(dialogue)`: a `(happy)` tag in any case wins, and a
      neutral dialogue holds none of the five parenthesised tags. */
  function DetectEmotion(dialogue: string): (r: Emotion)
    ensures Contains(Lower(dialogue), "(happy)") ==> r == Happy
    ensures r == Neutral ==>
              !Contains(Lower(dialogue), "(happy)") && !Contains(Lower(dialogue), "(sad)") &&
              !Contains(Lower(dialogue), "(angry)") && !Contains(Lower(dialogue), "(nervous)") &&
              !Contains(Lower(dialogue), "(love)")
  {
    var lower := Lower(dialogue);
    if Contains(lower, "(happy)") || Contains(lower, HappyGlyph) || Contains(lower, "smiling") then Happy
    else if Contains(lower, "(sad)") || Contains(lower, SadGlyph) || Contains(lower, "crying") then Sad
    else if Contains(lower, "(angry)") || Contains(lower, AngryGlyph) || Contains(lower, "shouting") then Angry
    else if Contains(lower, "(nervous)") || Contains(lower, NervousGlyph) || Contains(lower, "anxious") then Nervous
    else if Contains(lower, "(love)") || Contains(lower, LoveGlyph) || Contains(lower, "romantic") then Romantic
    else Neutral
  }

  /** The classifier as a table: each emotion with its markers, in priority
      order. */
  const Groups: seq<(Emotion, seq<string>)> := [
    (Happy, ["(happy)", HappyGlyph, "smiling"]),
    (Sad, ["(sad)", SadGlyph, "crying"]),
    (Angry, ["(angry)", AngryGlyph, "shouting"]),
    (Nervous, ["(nervous)", NervousGlyph, "anxious"]),
    (Romantic, ["(love)", LoveGlyph, "romantic"])
  ]

  /** Some marker of group `g` occurs in `text`. */
  predicate GroupMatches(text: string, g: nat)
    requires g < |Groups|
  {
    exists m :: m in Groups[g].1 && Contains(text, m)
  }

  lemma GroupMatchesAny(text: string, g: nat)
    requires g < |Groups|
    ensures |Groups[g].1| == 3
    ensures GroupMatches(text, g) <==>
              Contains(text, Groups[g].1[0]) || Contains(text, Groups[g].1[1]) || Contains(text, Groups[g].1[2])
  {
    if GroupMatches(text, g) {
      var m :| m in Groups[g].1 && Contains(text, m);
      assert m == Groups[g].1[0] || m == Groups[g].1[1] || m == Groups[g].1[2];
    }
  }

  /** The classifier picks the first group, in priority order, one of whose
      markers occurs in the lower-cased dialogue, and is neutral exactly
      when no marker of any group occurs. */
  lemma DetectEmotionFirstMatch(dialogue: string)
    ensures DetectEmotion(dialogue) == Neutral ==>
              forall g :: 0 <= g < |Groups| ==> !GroupMatches(Lower(dialogue), g)
    ensures (forall g :: 0 <= g < |Groups| ==> !GroupMatches(Lower(dialogue), g)) ==>
              DetectEmotion(dialogue) == Neutral
    ensures forall g :: 0 <= g < |Groups| ==>
              (DetectEmotion(dialogue) == Groups[g].0 <==>
                 GroupMatches(Lower(dialogue), g) &&
                 forall h :: 0 <= h < g ==> !GroupMatches(Lower(dialogue), h))
  {
    var lower := Lower(dialogue);
    var m0, m1, m2, m3, m4 := GroupMatches(lower, 0), GroupMatches(lower, 1),
                              GroupMatches(lower, 2), GroupMatches(lower, 3), GroupMatches(lower, 4);
    var e := DetectEmotion(dialogue);
    assert e == (if m0 then Happy else if m1 then Sad else if m2 then Angry
                 else if m3 then Nervous else if m4 then Romantic else Neutral) by {
      GroupMatchesAny(lower, 0);
      GroupMatchesAny(lower, 1);
      GroupMatchesAny(lower, 2);
      GroupMatchesAny(lower, 3);
      GroupMatchesAny(lower, 4);
    }
    assert |Groups| == 5;
    if forall g :: 0 <= g < |Groups| ==> !GroupMatches(lower, g) {
      assert !m0 && !m1 && !m2 && !m3 && !m4;
    }
    if e == Neutral {
      forall g | 0 <= g < |Groups| ensures !GroupMatches(lower, g) {
        if g == 0 {
        } else if g == 1 {
        } else if g == 2 {
        } else if g == 3 {
        } else {
          assert g == 4;
        }
      }
    }
    forall g | 0 <= g < |Groups|
      ensures e == Groups[g].0 <==> GroupMatches(lower, g) && forall h :: 0 <= h < g ==> !GroupMatches(lower, h)
    {
      if g == 0 {
      } else if g == 1 {
      } else if g == 2 {
      } else if g == 3 {
      } else {
        assert g == 4;
      }
    }
  }

  /** Classification ignores case: upper- or lower-casing the dialogue first
      changes nothing. */
  lemma DetectEmotionIgnoresCase(dialogue: string)
    ensures DetectEmotion(Upper(dialogue)) == DetectEmotion(dialogue)
    ensures DetectEmotion(Lower(dialogue)) == DetectEmotion(dialogue)
  {
    LowerOfUpper(dialogue);
    LowerIdempotent(dialogue);
  }

  /** A `(happy)` tag anywhere in the dialogue makes it happy, whatever
      else it holds. */
  lemma DetectEmotionHappyTag(dialogue: string)
    requires Contains(dialogue, "(happy)")
    ensures DetectEmotion(dialogue) == Happy
  {
    var i :| OccursAt(dialogue, "(happy)", i);
    assert OccursAt(dialogue, "(happy)", i);
    var lower := Lower(dialogue);
    forall k | 0 <= k < 7 ensures lower[i + k] == "(happy)"[k] {
      assert dialogue[i + k] == "(happy)"[k];
    }
    assert OccursAt(lower, "(happy)", i);
  }
}
