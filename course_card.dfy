/** A course card's presentation logic: the colour palette chosen from the
    course's requirement type, the unit badge, and which optional sections
    the card shows.

    Only ASCII letters are upper-cased; whitespace is the set JavaScript's
    `\s` matches. */
module CourseCard {
  import opened Common

  // ---------------------------------------------------------------------
  // Normalising the requirement type
  // ---------------------------------------------------------------------

  /** A character JavaScript's `\s` matches. */
  predicate IsSpace(c: char) {
    || c == ' ' || c == '\t' || c == '\n' || c == '\U{B}' || c == '\U{C}' || c == '\r'
    || c == '\U{A0}' || c == '\U{1680}' || ('\U{2000}' <= c <= '\U{200A}')
    || c == '\U{2028}' || c == '\U{2029}' || c == '\U{202F}' || c == '\U{205F}'
    || c == '\U{3000}' || c == '\U{FEFF}'
  }

  predicate NoSpace(s: string) {
    forall i :: 0 <= i < |s| ==> !IsSpace(s[i])
  }

  predicate IsLower(c: char) {
    'a' <= c <= 'z'
  }

  function UpperChar(c: char): char {
    if IsLower(c) then (c as int - 32) as char else c
  }

  /** String.prototype.toUpperCase on ASCII letters. */
  function Upper(s: string): string {
    seq(|s|, i requires 0 <= i < |s| => UpperChar(s[i]))
  }

  /** Drops the whitespace at the front of `s`. */
  function DropSpace(s: string): (r: string)
    ensures |r| <= |s| && (r == [] || !IsSpace(r[0]))
  {
    if s != [] && IsSpace(s[0]) then DropSpace(s[1..]) else s
  }

  /** `s.replace(/\s+/g, "_")`: every maximal run of whitespace becomes one
      underscore. */
  function CollapseSpace(s: string): (r: string)
    ensures NoSpace(r)
    decreases |s|
  {
    if s == [] then []
    else if IsSpace(s[0]) then "_" + CollapseSpace(DropSpace(s[1..]))
    else [s[0]] + CollapseSpace(s[1..])
  }

  /** A string without whitespace is left alone. */
  lemma {:induction false} CollapseNoSpace(s: string)
    requires NoSpace(s)
    ensures CollapseSpace(s) == s
  {
    if s != [] {
      CollapseNoSpace(s[1..]);
    }
  }

  lemma {:induction false} DropSpaceRun(w: string, u: string)
    requires forall i :: 0 <= i < |w| ==> IsSpace(w[i])
    requires u == [] || !IsSpace(u[0])
    ensures DropSpace(w + u) == u
  {
    if w != [] {
      assert (w + u)[1..] == w[1..] + u;
      DropSpaceRun(w[1..], u);
    } else {
      assert w + u == u;
    }
  }

  /** A run of whitespace between a space-free prefix and the rest becomes a
      single underscore, wherever it is and however long it is. */
  lemma {:induction false} CollapseRun(t: string, w: string, u: string)
    requires NoSpace(t)
    requires |w| > 0 && forall i :: 0 <= i < |w| ==> IsSpace(w[i])
    requires u == [] || !IsSpace(u[0])
    ensures CollapseSpace(t + w + u) == t + "_" + CollapseSpace(u)
    decreases |t|
  {
    if t == [] {
      assert t + w + u == w + u;
      assert (w + u)[1..] == w[1..] + u;
      DropSpaceRun(w[1..], u);
    } else {
      assert (t + w + u)[1..] == t[1..] + w + u;
      CollapseRun(t[1..], w, u);
    }
  }

  /** `requirementType?.toUpperCase().replace(/\s+/g, "_") || ""`. */
  function NormalizedType(requirementType: Option<string>): string {
    match requirementType
    case None => ""
    case Some(s) => CollapseSpace(Upper(s))
  }

  predicate NoLower(s: string) {
    forall i :: 0 <= i < |s| ==> !IsLower(s[i])
  }

  lemma {:induction false} CollapseKeepsNoLower(s: string)
    requires NoLower(s)
    ensures NoLower(CollapseSpace(s))
    decreases |s|
  {
    if s != [] {
      if IsSpace(s[0]) {
        var d := DropSpace(s[1..]);
        assert NoLower(d) by {
          DropSpaceSuffix(s[1..]);
        }
        CollapseKeepsNoLower(d);
      } else {
        CollapseKeepsNoLower(s[1..]);
      }
    }
  }

  lemma {:induction false} DropSpaceSuffix(s: string)
    ensures exists k :: 0 <= k <= |s| && DropSpace(s) == s[k..]
  {
    if s != [] && IsSpace(s[0]) {
      DropSpaceSuffix(s[1..]);
      var k :| 0 <= k <= |s| - 1 && DropSpace(s[1..]) == s[1..][k..];
      assert s[1..][k..] == s[k + 1..];
    } else {
      assert s == s[0..];
    }
  }

  /** The normal form has no whitespace and no lower-case letter, maps a
      missing type to "", and normalising it again changes nothing. */
  lemma NormalizedTypeFacts(requirementType: Option<string>)
    ensures NoSpace(NormalizedType(requirementType))
    ensures NoLower(NormalizedType(requirementType))
    ensures requirementType == None ==> NormalizedType(requirementType) == ""
    ensures NormalizedType(Some(NormalizedType(requirementType))) == NormalizedType(requirementType)
  {
    var n := NormalizedType(requirementType);
    if requirementType.Some? {
      CollapseKeepsNoLower(Upper(requirementType.value));
    }
    assert Upper(n) == n;
    CollapseNoSpace(n);
  }

  // ---------------------------------------------------------------------
  // Colour palettes
  // ---------------------------------------------------------------------

  datatype ColorClasses = ColorClasses(borderColor: string, bgColor: string, textColor: string, badgeColor: string)

  const MajorColors := ColorClasses(
    "border-[hsl(var(--course-major))]",
    "bg-[hsl(var(--course-major-bg))]",
    "text-[hsl(var(--course-major))]",
    "bg-[hsl(var(--course-major))] text-white")

  const GeneralEdColors := ColorClasses(
    "border-[hsl(var(--course-general-ed))]",
    "bg-[hsl(var(--course-general-ed-bg))]",
    "text-[hsl(var(--course-general-ed))]",
    "bg-[hsl(var(--course-general-ed))] text-white")

  const ElectiveColors := ColorClasses(
    "border-[hsl(var(--course-elective))]",
    "bg-[hsl(var(--course-elective-bg))]",
    "text-[hsl(var(--course-elective))]",
    "bg-[hsl(var(--course-elective))] text-white")

  predicate IsMajorType(n: string) {
    Contains(n, "MAJOR") || Contains(n, "CORE")
  }

  predicate IsGeneralEdType(n: string) {
    Contains(n, "GENERAL_EDUCATION") || Contains(n, "GE")
  }

  predicate IsElectiveType(n: string) {
    Contains(n, "ELECTIVE")
  }

  /** getCourseColorClasses: the rules are tried in order and the first that
      matches decides. */
  function GetCourseColorClasses(requirementType: Option<string>, isChoice: int): (r: ColorClasses)
    ensures r == MajorColors || r == GeneralEdColors || r == ElectiveColors
  {
    var n := NormalizedType(requirementType);
    if IsMajorType(n) then MajorColors
    else if IsGeneralEdType(n) then GeneralEdColors
    else if IsElectiveType(n) then ElectiveColors
    else if isChoice == 1 then ElectiveColors
    else MajorColors
  }

  /** Which palette a card gets, stated per palette: a major or core type
      wins over everything; otherwise a general-education type; otherwise an
      elective type or a choice element gets the elective palette; all else
      gets the major palette. */
  lemma ColorClassesExact(requirementType: Option<string>, isChoice: int)
    ensures var n := NormalizedType(requirementType);
            var r := GetCourseColorClasses(requirementType, isChoice);
            && (r == MajorColors <==> IsMajorType(n) || (!IsGeneralEdType(n) && !IsElectiveType(n) && isChoice != 1))
            && (r == GeneralEdColors <==> !IsMajorType(n) && IsGeneralEdType(n))
            && (r == ElectiveColors <==> !IsMajorType(n) && !IsGeneralEdType(n) && (IsElectiveType(n) || isChoice == 1))
  {
    assert MajorColors.borderColor[25] == 'm' && GeneralEdColors.borderColor[25] == 'g'
      && ElectiveColors.borderColor[25] == 'e';
  }

  /** "GE" occurs in every type that contains "GENERAL_EDUCATION", so the
      longer test never decides anything on its own. */
  lemma GeneralEducationSubsumed(n: string)
    ensures IsGeneralEdType(n) <==> Contains(n, "GE")
  {
    if Contains(n, "GENERAL_EDUCATION") {
      assert Contains("GENERAL_EDUCATION", "GE") by {
        assert OccursAt("GENERAL_EDUCATION", "GE", 0);
      }
      ContainsTransitive(n, "GENERAL_EDUCATION", "GE");
    }
  }

  /** A type-less choice element is drawn as an elective, a type-less
      ordinary course as a major course. */
  lemma UntypedCards()
    ensures GetCourseColorClasses(None, 1) == ElectiveColors
    ensures GetCourseColorClasses(None, 0) == MajorColors
  {
    assert NormalizedType(None) == "";
    assert !Contains("", "MAJOR") && !Contains("", "CORE") && !Contains("", "GE")
      && !Contains("", "GENERAL_EDUCATION") && !Contains("", "ELECTIVE");
  }

  // ---------------------------------------------------------------------
  // The card
  // ---------------------------------------------------------------------

  /** The fields of a course record that a card reads. */
  datatype CardCourse = CardCourse(
    id: string,
    code: string,
    title: string,
    units: int,
    description: Option<string>,
    prerequisites: Option<seq<string>>,
    requirementType: Option<string>,
    isChoice: Option<int>,
    choiceDescription: Option<string>)

  /** `course.isChoice === 1`. */
  predicate IsChoiceCard(c: CardCourse) {
    c.isChoice == Some(1)
  }

  /** The palette of a card: `requirementType || null`, `isChoice || 0`. */
  function CardColors(c: CardCourse): ColorClasses {
    GetCourseColorClasses(
      if Truthy(c.requirementType) then c.requirementType else None,
      match c.isChoice case Some(k) => k case None => 0)
  }

  function UnitLabel(units: int): string {
    if units == 1 then "unit" else "units"
  }

  /** What a card shows, as data. */
  datatype CardView = CardView(
    colors: ColorClasses,
    unitBadge: string,
    choiceText: Option<string>,
    descriptionText: Option<string>,
    requirementBadge: Option<string>,
    prerequisiteBadges: seq<string>,
    inChat: bool)

  function RenderCard(c: CardCourse, isInConversation: bool): CardView {
    CardView(
      CardColors(c),
      IntToString(c.units) + " " + UnitLabel(c.units),
      if IsChoiceCard(c) && Truthy(c.choiceDescription) then c.choiceDescription else None,
      if Truthy(c.description) && !IsChoiceCard(c) then c.description else None,
      if Truthy(c.requirementType) then c.requirementType else None,
      if c.prerequisites.Some? && |c.prerequisites.value| > 0 then c.prerequisites.value else [],
      isInConversation)
  }

  /** The unit badge is the number of units in plain decimal (no leading
      zero, so by CanonicalUnique exactly the printed number), followed by "unit"
      exactly when there is one unit and "units" otherwise. */
  lemma UnitBadgeReadsBack(c: CardCourse, isInConversation: bool)
    ensures var badge := RenderCard(c, isInConversation).unitBadge;
            exists k :: 0 <= k < |badge| && badge[k] == ' '
              && ParseInt(badge[..k]) == Some(c.units) && Canonical(badge[..k])
              && (badge[k + 1..] == "unit" <==> c.units == 1)
              && (badge[k + 1..] == "units" <==> c.units != 1)
  {
    var digits := IntToString(c.units);
    var badge := RenderCard(c, isInConversation).unitBadge;
    ParseIntToString(c.units);
    CanonicalUnique(digits, c.units);
    assert badge[..|digits|] == digits;
    assert badge[|digits| + 1..] == UnitLabel(c.units);
    assert badge[|digits|] == ' ';
  }

  /** The optional sections: the choice description only on a choice card,
      the regular description only on a non-choice card (so never both),
      each only when its text is non-empty; prerequisite badges exactly when
      the list is present and non-empty; the requirement badge when the type
      is non-empty. */
  lemma CardSections(c: CardCourse, isInConversation: bool)
    ensures var v := RenderCard(c, isInConversation);
            && (v.choiceText.Some? <==> c.isChoice == Some(1) && Truthy(c.choiceDescription))
            && (v.descriptionText.Some? <==> c.isChoice != Some(1) && Truthy(c.description))
            && !(v.choiceText.Some? && v.descriptionText.Some?)
            && (|v.prerequisiteBadges| > 0 <==> c.prerequisites.Some? && |c.prerequisites.value| > 0)
            && (|v.prerequisiteBadges| > 0 ==> v.prerequisiteBadges == c.prerequisites.value)
            && (v.requirementBadge.Some? <==> Truthy(c.requirementType))
            && v.inChat == isInConversation
  {
  }
}
