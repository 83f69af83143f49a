/** The landing-page navigation bar: the button label shown for each section
    id, and when the bar is shown. */
module Navbar {
  import opened Common

  /** The section ids the bar links to, in display order. */
  const SectionIds: seq<string> := ["how-we-work", "our-projects", "about-us", "team"]

  /** `toUpperCase` on one character, for the ASCII letters. */
  function ToUpper(c: char): (u: char)
    ensures !('a' <= u <= 'z')
    ensures 'a' <= c <= 'z' ==> 'A' <= u <= 'Z'
    ensures !('a' <= c <= 'z') ==> u == c
  {
    if 'a' <= c <= 'z' then (c as int - 32) as char else c
  }

  const LowerCase: string := "abcdefghijklmnopqrstuvwxyz"
  const UpperCase: string := "ABCDEFGHIJKLMNOPQRSTUVWXYZ"

  /** Each lower-case letter is upper-cased to the letter at the same place
      of the alphabet. */
  lemma ToUpperAlphabet()
    ensures forall k :: 0 <= k < 26 ==> ToUpper(LowerCase[k]) == UpperCase[k]
  {
  }

  /** `word.charAt(0).toUpperCase() + word.slice(1)` */
  function Capitalize(word: string): string {
    if word == [] then "" else [ToUpper(word[0])] + word[1..]
  }

  function CapitalizeAll(words: seq<string>): seq<string> {
    if words == [] then [] else [Capitalize(words[0])] + CapitalizeAll(words[1..])
  }

  /** The label of a section button: the `-`-separated words, each with its
      first character upper-cased, joined by single spaces. */
  function Label(sectionId: string): string {
    Join(CapitalizeAll(Split(sectionId, '-')), ' ')
  }

  /** Reference definition of the label, one character at a time: a hyphen
      becomes a space, a character at the start of a word is upper-cased and
      every other character is kept. */
  function LabelFrom(s: string, atWordStart: bool): string {
    if s == [] then ""
    else
      [if s[0] == '-' then ' ' else if atWordStart then ToUpper(s[0]) else s[0]]
      + LabelFrom(s[1..], s[0] == '-')
  }

  /** Character k of the label, stated without recursion. */
  function LabelCharAt(s: string, k: nat): char
    requires k < |s|
  {
    if s[k] == '-' then ' '
    else if k == 0 || s[k - 1] == '-' then ToUpper(s[k])
    else s[k]
  }

  lemma {:induction false} LabelMatchesReference(s: string, atWordStart: bool)
    ensures var words := Split(s, '-');
            Join([if atWordStart then Capitalize(words[0]) else words[0]]
                 + CapitalizeAll(words[1..]), ' ')
            == LabelFrom(s, atWordStart)
    decreases |s|
  {
    if s != [] {
      var rest := Split(s[1..], '-');
      if s[0] == '-' {
        LabelMatchesReference(s[1..], true);
        var tail := CapitalizeAll(rest);
        assert tail == [Capitalize(rest[0])] + CapitalizeAll(rest[1..]);
        assert ([""] + tail)[1..] == tail;
        assert Join([""] + tail, ' ') == "" + [' '] + Join(tail, ' ');
      } else {
        LabelMatchesReference(s[1..], false);
        var first := [s[0]] + rest[0];
        assert Capitalize(first) == [ToUpper(s[0])] + rest[0];
        var x := if atWordStart then ToUpper(s[0]) else s[0];
        JoinConsChar(x, rest[0], CapitalizeAll(rest[1..]), ' ');
      }
    }
  }

  lemma {:induction false} LabelFromAt(s: string, atWordStart: bool, k: nat)
    requires k < |s|
    ensures |LabelFrom(s, atWordStart)| == |s|
    ensures LabelFrom(s, atWordStart)[k]
         == if s[k] == '-' then ' '
            else if (if k == 0 then atWordStart else s[k - 1] == '-') then ToUpper(s[k])
            else s[k]
    decreases |s|
  {
    if k > 0 {
      LabelFromAt(s[1..], s[0] == '-', k - 1);
    } else if |s| > 1 {
      LabelFromAt(s[1..], s[0] == '-', 0);
    } else {
      assert s[1..] == [];
    }
  }

  /** The label has the section id's length, and each of its characters is
      determined by the id's character there and the one before it. */
  lemma LabelShape(sectionId: string)
    ensures |Label(sectionId)| == |sectionId|
    ensures forall k :: 0 <= k < |sectionId| ==> Label(sectionId)[k] == LabelCharAt(sectionId, k)
  {
    LabelMatchesReference(sectionId, true);
    var words := Split(sectionId, '-');
    assert CapitalizeAll(words) == [Capitalize(words[0])] + CapitalizeAll(words[1..]);
    if sectionId != [] {
      LabelFromAt(sectionId, true, 0);
      forall k | 0 <= k < |sectionId|
        ensures Label(sectionId)[k] == LabelCharAt(sectionId, k)
      {
        LabelFromAt(sectionId, true, k);
      }
    }
  }

  /** The label contains no hyphen; when the id contains no space, the spaces
      of the label are exactly where the id had hyphens. */
  lemma LabelSpacesAreHyphens(sectionId: string)
    ensures |Label(sectionId)| == |sectionId|
    ensures '-' !in Label(sectionId)
    ensures ' ' !in sectionId ==>
      forall k :: 0 <= k < |sectionId| ==> (Label(sectionId)[k] == ' ' <==> sectionId[k] == '-')
  {
    LabelShape(sectionId);
  }

  /** Words are recovered from the label by splitting on spaces, when the id
      holds no space: each is the corresponding word of the id, capitalized. */
  lemma LabelWords(sectionId: string)
    requires ' ' !in sectionId
    ensures Split(Label(sectionId), ' ') == CapitalizeAll(Split(sectionId, '-'))
  {
    SplitKeepsAbsentChar(sectionId, '-', ' ');
    CapitalizeAllNoSpace(Split(sectionId, '-'));
    SplitJoin(CapitalizeAll(Split(sectionId, '-')), ' ');
  }

  lemma {:induction false} CapitalizeAllNoSpace(words: seq<string>)
    requires forall k :: 0 <= k < |words| ==> ' ' !in words[k]
    ensures |CapitalizeAll(words)| == |words|
    ensures forall k :: 0 <= k < |words| ==> ' ' !in CapitalizeAll(words)[k]
  {
    if words != [] {
      CapitalizeAllNoSpace(words[1..]);
      var tail := CapitalizeAll(words[1..]);
      assert CapitalizeAll(words) == [Capitalize(words[0])] + tail;
      assert ' ' !in Capitalize(words[0]);
    }
  }

  /** The four buttons of the bar read "How We Work", "Our Projects",
      "About Us" and "Team". */
  lemma SectionLabels()
    ensures Label(SectionIds[0]) == "How We Work"
    ensures Label(SectionIds[1]) == "Our Projects"
    ensures Label(SectionIds[2]) == "About Us"
    ensures Label(SectionIds[3]) == "Team"
  {
    HowWeWorkLabel();
    OurProjectsLabel();
    AboutUsLabel();
    TeamLabel();
  }

  lemma HowWeWorkLabel() ensures Label("how-we-work") == "How We Work" {
    LabelOf("how-we-work", "How We Work");
  }

  lemma OurProjectsLabel() ensures Label("our-projects") == "Our Projects" {
    LabelOf("our-projects", "Our Projects");
  }

  lemma AboutUsLabel() ensures Label("about-us") == "About Us" {
    LabelOf("about-us", "About Us");
  }

  lemma TeamLabel() ensures Label("team") == "Team" {
    LabelOf("team", "Team");
  }

  lemma LabelOf(sectionId: string, expected: string)
    requires |expected| == |sectionId|
    requires forall k :: 0 <= k < |sectionId| ==> expected[k] == LabelCharAt(sectionId, k)
    ensures Label(sectionId) == expected
  {
    LabelShape(sectionId);
  }

  /** The scroll handler: when the "how-we-work" section is on the page, the
      bar is shown exactly when the window has scrolled down to its top;
      when the section is missing, visibility stays as it was. */
  function OnScroll(isVisible: bool, scrollY: real, secondSectionTop: Option<real>): (visible: bool)
    ensures secondSectionTop.None? ==> visible == isVisible
    ensures secondSectionTop.Some? ==> (visible <==> scrollY >= secondSectionTop.value)
  {
    match secondSectionTop
    case None => isVisible
    case Some(top) => scrollY >= top
  }

  /** The bar starts hidden (`useState(false)`). */
  const InitiallyVisible := false

  /** Before any scroll event, and while the section is missing, the bar stays
      hidden; above the section's top it is hidden whatever it was before. */
  lemma HiddenAboveSection(isVisible: bool, scrollY: real, secondSectionTop: Option<real>)
    requires secondSectionTop.Some? ==> scrollY < secondSectionTop.value
    ensures secondSectionTop.Some? ==> !OnScroll(isVisible, scrollY, secondSectionTop)
    ensures !OnScroll(InitiallyVisible, scrollY, secondSectionTop)
  {
  }

  /** Once shown, the bar stays shown while scrolling further down. */
  lemma VisibleFurtherDown(isVisible: bool, scrollY: real, further: real, top: real)
    requires OnScroll(isVisible, scrollY, Some(top))
    requires further >= scrollY
    ensures OnScroll(false, further, Some(top))
  {
  }

  /** Once hidden by a scroll, the bar stays hidden while scrolling back up. */
  lemma HiddenFurtherUp(isVisible: bool, scrollY: real, further: real, top: real)
    requires !OnScroll(isVisible, scrollY, Some(top))
    requires further <= scrollY
    ensures !OnScroll(true, further, Some(top))
  {
  }
}
