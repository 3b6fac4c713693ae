/**
 * Task priorities.  A task stores its priority as an icon path
 * (`../img/priority-img/<level>.png`); the board reads the level back out
 * of that path, labels it, maps it to a card icon, and the edit and add
 * dialogs read it from their priority buttons.
 */
module Priority {
  import opened Wrappers
  import opened Text

  const Urgent: string := "urgent"
  const Medium: string := "medium"
  const Low: string := "low"

  predicate IsLevel(p: string) {
    p == Urgent || p == Medium || p == Low
  }

  const UrgentPath: string := "../img/priority-img/urgent.png"
  const MediumPath: string := "../img/priority-img/medium.png"
  const LowPath: string := "../img/priority-img/low.png"

  /** `getPriorityPath(priority)`: the stored icon path of a level; any other name gets the medium path. */
  function PriorityPath(priority: string): (r: string)
    ensures r == UrgentPath || r == MediumPath || r == LowPath
  {
    if priority == Urgent then UrgentPath
    else if priority == Low then LowPath
    else MediumPath
  }

  /**
   * `extractPriority(iconPath)` of the board scripts: case-insensitive,
   * `urgent` before `medium` before `low`, `medium` by default (also for
   * a missing path, the empty string here).
   */
  function ExtractPriority(iconPath: string): (r: string)
    ensures IsLevel(r)
  {
    if iconPath == "" then Medium
    else
      var lower := ToLower(iconPath);
      if Contains(lower, Urgent) then Urgent
      else if Contains(lower, Medium) then Medium
      else if Contains(lower, Low) then Low
      else Medium
  }

  /**
   * `extractPriority(priorityPath)` of the edit dialog: the same search
   * without the `medium` step, so `low` is checked right after `urgent`.
   */
  function ExtractPriorityUrgentLow(priorityPath: string): (r: string)
    ensures IsLevel(r)
  {
    if priorityPath == "" then Medium
    else
      var lower := ToLower(priorityPath);
      if Contains(lower, Urgent) then Urgent
      else if Contains(lower, Low) then Low
      else Medium
  }

  /** `getPriorityLabel(iconPath)`: case-sensitive, `Unknown` when no level is named. */
  function PriorityLabel(iconPath: string): (r: string)
    ensures r in {"Urgent", "Medium", "Low", "Unknown"}
  {
    if iconPath == "" then "Unknown"
    else if Contains(iconPath, Urgent) then "Urgent"
    else if Contains(iconPath, Medium) then "Medium"
    else if Contains(iconPath, Low) then "Low"
    else "Unknown"
  }

  /** The label the board shows for a level. */
  function LabelOf(level: string): string
    requires IsLevel(level)
  {
    if level == Urgent then "Urgent" else if level == Medium then "Medium" else "Low"
  }

  const UrgentIcon: string := "../img/icon-urgent.png"
  const LowIcon: string := "../img/icon-low.png"

  /**
   * `getPriorityImage(task)`: the card icon of the extracted level.  The
   * level is always a key of the mapping, so the fallback to `medium` is
   * never taken.
   */
  function PriorityImage(priority: string): (r: string)
    ensures r == UrgentIcon || r == MediumPath || r == LowIcon
  {
    var prio := ExtractPriority(priority);
    if prio == Urgent then UrgentIcon else if prio == Medium then MediumPath else LowIcon
  }

  // Facts about the fixed paths, each shown by a character the word needs
  // and the path lacks, or by the one place the word could start.

  lemma UrgentPathLower() ensures IsLowerCase(UrgentPath) {}
  lemma MediumPathLower() ensures IsLowerCase(MediumPath) {}
  lemma LowPathLower() ensures IsLowerCase(LowPath) {}
  lemma UrgentIconLower() ensures IsLowerCase(UrgentIcon) {}
  lemma LowIconLower() ensures IsLowerCase(LowIcon) {}

  lemma UrgentPathNamesUrgent()
    ensures Contains(UrgentPath, Urgent)
  {
    ContainsInfix("../img/priority-img/", Urgent, ".png");
    assert "../img/priority-img/" + Urgent + ".png" == UrgentPath;
  }

  lemma UrgentPathNamesNoOther()
    ensures !Contains(UrgentPath, Medium) && !Contains(UrgentPath, Low)
  {
    assert Medium[2] == 'd' && Low[2] == 'w';
    assert 'd' !in UrgentPath && 'w' !in UrgentPath;
    NotContainsMissingChar(UrgentPath, Medium, 2);
    NotContainsMissingChar(UrgentPath, Low, 2);
  }

  lemma MediumPathNamesMedium()
    ensures Contains(MediumPath, Medium)
  {
    ContainsInfix("../img/priority-img/", Medium, ".png");
    assert "../img/priority-img/" + Medium + ".png" == MediumPath;
  }

  lemma MediumPathNamesNoOther()
    ensures !Contains(MediumPath, Urgent) && !Contains(MediumPath, Low)
  {
    assert "../img/priority-img/medi" + "um.png" == MediumPath;
    assert 'u' !in "../img/priority-img/medi";
    NotContainsSplit("../img/priority-img/medi", "um.png", Urgent);
    assert Low[2] == 'w' && 'w' !in MediumPath;
    NotContainsMissingChar(MediumPath, Low, 2);
  }

  lemma LowPathNamesLow()
    ensures Contains(LowPath, Low)
  {
    ContainsInfix("../img/priority-img/", Low, ".png");
    assert "../img/priority-img/" + Low + ".png" == LowPath;
  }

  lemma LowPathNamesNoOther()
    ensures !Contains(LowPath, Urgent) && !Contains(LowPath, Medium)
  {
    assert Urgent[0] == 'u' && Medium[2] == 'd';
    assert 'u' !in LowPath && 'd' !in LowPath;
    NotContainsMissingChar(LowPath, Urgent, 0);
    NotContainsMissingChar(LowPath, Medium, 2);
  }

  lemma UrgentIconNamesUrgent()
    ensures Contains(UrgentIcon, Urgent)
  {
    ContainsInfix("../img/icon-", Urgent, ".png");
    assert "../img/icon-" + Urgent + ".png" == UrgentIcon;
  }

  lemma UrgentIconNamesNoOther()
    ensures !Contains(UrgentIcon, Medium) && !Contains(UrgentIcon, Low)
  {
    assert Medium[2] == 'd' && Low[2] == 'w';
    assert 'd' !in UrgentIcon && 'w' !in UrgentIcon;
    NotContainsMissingChar(UrgentIcon, Medium, 2);
    NotContainsMissingChar(UrgentIcon, Low, 2);
  }

  lemma LowIconNamesLow()
    ensures Contains(LowIcon, Low)
  {
    ContainsInfix("../img/icon-", Low, ".png");
    assert "../img/icon-" + Low + ".png" == LowIcon;
  }

  lemma LowIconNamesNoOther()
    ensures !Contains(LowIcon, Urgent) && !Contains(LowIcon, Medium)
  {
    assert Urgent[0] == 'u' && Medium[2] == 'd';
    assert 'u' !in LowIcon && 'd' !in LowIcon;
    NotContainsMissingChar(LowIcon, Urgent, 0);
    NotContainsMissingChar(LowIcon, Medium, 2);
  }

  /** Extraction from lower-case text that names exactly one level gives that level. */
  lemma ExtractNamedLevel(s: string, p: string)
    requires IsLowerCase(s) && IsLevel(p) && Contains(s, p)
    requires forall q :: IsLevel(q) && q != p ==> !Contains(s, q)
    ensures ExtractPriority(s) == p && ExtractPriorityUrgentLow(s) == p
  {
    ToLowerOfLower(s);
  }

  /** Reading the level back out of the stored path of a level gives that level. */
  lemma ExtractPriorityOfPath(p: string)
    requires IsLevel(p)
    ensures ExtractPriority(PriorityPath(p)) == p
    ensures ExtractPriorityUrgentLow(PriorityPath(p)) == p
  {
    if p == Urgent {
      UrgentPathLower();
      UrgentPathNamesUrgent();
      UrgentPathNamesNoOther();
    } else if p == Medium {
      MediumPathLower();
      MediumPathNamesMedium();
      MediumPathNamesNoOther();
    } else {
      LowPathLower();
      LowPathNamesLow();
      LowPathNamesNoOther();
    }
    ExtractNamedLevel(PriorityPath(p), p);
  }

  /** Any name that is not a level is stored as medium and read back as medium. */
  lemma PriorityPathDefault(p: string)
    requires !IsLevel(p)
    ensures PriorityPath(p) == PriorityPath(Medium)
    ensures ExtractPriority(PriorityPath(p)) == Medium
  {
    ExtractPriorityOfPath(Medium);
  }

  /** Lower-casing twice is lower-casing once. */
  lemma ToLowerIdempotent(s: string)
    ensures ToLower(ToLower(s)) == ToLower(s)
  {
    ToLowerOfLower(ToLower(s));
  }

  /** `extractPriority` ignores case. */
  lemma ExtractPriorityIgnoresCase(s: string)
    ensures ExtractPriority(ToLower(s)) == ExtractPriority(s)
    ensures ExtractPriorityUrgentLow(ToLower(s)) == ExtractPriorityUrgentLow(s)
  {
    ToLowerIdempotent(s);
  }

  /** A level read as a path is itself: extracting is idempotent. */
  lemma ExtractPriorityIdempotent(s: string)
    ensures ExtractPriority(ExtractPriority(s)) == ExtractPriority(s)
    ensures ExtractPriorityUrgentLow(ExtractPriorityUrgentLow(s)) == ExtractPriorityUrgentLow(s)
  {
    LevelsNameThemselves();
  }

  lemma LevelsNameThemselves()
    ensures ExtractPriority(Urgent) == Urgent && ExtractPriority(Medium) == Medium && ExtractPriority(Low) == Low
    ensures ExtractPriorityUrgentLow(Urgent) == Urgent && ExtractPriorityUrgentLow(Medium) == Medium
    ensures ExtractPriorityUrgentLow(Low) == Low
  {
    ContainsSelf(Urgent);
    ContainsSelf(Medium);
    ContainsSelf(Low);
    assert 'm' !in Urgent && 'w' !in Urgent;
    NotContainsMissingChar(Urgent, Medium, 0);
    NotContainsMissingChar(Urgent, Low, 2);
    ExtractNamedLevel(Urgent, Urgent);
    assert "medi" + "um" == Medium && 'u' !in "medi" && 'w' !in Medium;
    NotContainsSplit("medi", "um", Urgent);
    NotContainsMissingChar(Medium, Low, 2);
    ExtractNamedLevel(Medium, Medium);
    NotContainsLonger(Low, Urgent);
    NotContainsLonger(Low, Medium);
    ExtractNamedLevel(Low, Low);
  }

  /**
   * On lower-case text the label and the extracted level agree: the label
   * is `Unknown` exactly when no level is named, and otherwise names the
   * extracted level.
   */
  lemma LabelAgreesWithExtract(s: string)
    requires IsLowerCase(s)
    ensures PriorityLabel(s) == "Unknown" <==> !Contains(s, Urgent) && !Contains(s, Medium) && !Contains(s, Low)
    ensures PriorityLabel(s) != "Unknown" ==> PriorityLabel(s) == LabelOf(ExtractPriority(s))
  {
    ToLowerOfLower(s);
    if s == "" {
      NotContainsLonger(s, Urgent);
      NotContainsLonger(s, Medium);
      NotContainsLonger(s, Low);
    }
  }

  /** Every stored path is labelled with its level. */
  lemma LabelOfPath(p: string)
    requires IsLevel(p)
    ensures PriorityLabel(PriorityPath(p)) == LabelOf(p)
  {
    if p == Urgent {
      UrgentPathLower();
      UrgentPathNamesUrgent();
    } else if p == Medium {
      MediumPathLower();
      MediumPathNamesMedium();
      MediumPathNamesNoOther();
    } else {
      LowPathLower();
      LowPathNamesLow();
      LowPathNamesNoOther();
    }
    LabelAgreesWithExtract(PriorityPath(p));
    ExtractPriorityOfPath(p);
  }

  /** The label is case-sensitive where the extraction is not. */
  lemma LabelIsCaseSensitive()
    ensures PriorityLabel("URGENT") == "Unknown" && ExtractPriority("URGENT") == Urgent
  {
    assert "URGENT"[0] == 'U';
    NotContainsMissingChar("URGENT", Urgent, 0);
    NotContainsMissingChar("URGENT", Medium, 0);
    NotContainsMissingChar("URGENT", Low, 0);
    assert ToLower("URGENT") == Urgent;
    ContainsSelf(Urgent);
  }

  /** The card icon, read as a priority, gives the priority it was chosen for. */
  lemma PriorityImageRoundTrip(p: string)
    ensures ExtractPriority(PriorityImage(p)) == ExtractPriority(p)
  {
    var prio := ExtractPriority(p);
    if prio == Urgent {
      UrgentIconLower();
      UrgentIconNamesUrgent();
      UrgentIconNamesNoOther();
    } else if prio == Medium {
      MediumPathLower();
      MediumPathNamesMedium();
      MediumPathNamesNoOther();
    } else {
      LowIconLower();
      LowIconNamesLow();
      LowIconNamesNoOther();
    }
    ExtractNamedLevel(PriorityImage(p), prio);
  }

  /** The two extractions differ only on text naming `medium` and `low` but not `urgent`. */
  lemma ExtractionsDiffer(s: string)
    ensures ExtractPriority(s) != ExtractPriorityUrgentLow(s) <==>
      var lower := ToLower(s);
      !Contains(lower, Urgent) && Contains(lower, Medium) && Contains(lower, Low)
  {
    if s == "" {
      NotContainsLonger(ToLower(s), Urgent);
    }
  }

  /** The edit dialog's priority buttons and which carry `active`. */
  datatype PriorityButtons = PriorityButtons(urgent: bool, medium: bool, low: bool)

  /** `getSelectedPriority()`: the first active button in the order urgent, medium, low; `medium` if none. */
  function SelectedPriority(b: PriorityButtons): (r: string)
    ensures IsLevel(r)
    ensures r == Urgent <==> b.urgent
    ensures r == Low <==> !b.urgent && !b.medium && b.low
  {
    if b.urgent then Urgent else if b.medium then Medium else if b.low then Low else Medium
  }

  /**
   * `setEditPriority(priority)`: every button loses `active`, then the
   * urgent or low button gains it for those levels and the medium button
   * for anything else.
   */
  function SetEditPriority(priority: string): (b: PriorityButtons)
    ensures (b.urgent && !b.medium && !b.low) || (!b.urgent && b.medium && !b.low) || (!b.urgent && !b.medium && b.low)
  {
    if priority == Urgent then PriorityButtons(true, false, false)
    else if priority == Low then PriorityButtons(false, false, true)
    else PriorityButtons(false, true, false)
  }

  /** The priority set into the edit dialog is the one read back from it; unknown names read back as medium. */
  lemma SelectedAfterSet(p: string)
    ensures SelectedPriority(SetEditPriority(p)) == (if IsLevel(p) then p else Medium)
  {
  }

  /** The active option of the add-task dialog: its `data-priority` and its classes. */
  datatype PriorityOption = PriorityOption(dataset: Option<string>, classes: set<string>)

  /**
   * `getPriorityValueFromOption(el)`: a `data-priority` naming a level
   * wins, then the button classes in the order urgent, medium, low, and
   * `low` otherwise.
   */
  function PriorityValueFromOption(el: PriorityOption): (r: string)
    ensures IsLevel(r)
    ensures el.dataset.Some? && IsLevel(el.dataset.value) ==> r == el.dataset.value
  {
    if el.dataset.Some? && IsLevel(el.dataset.value) then el.dataset.value
    else if "priority-button-urgent" in el.classes then Urgent
    else if "priority-button-medium" in el.classes then Medium
    else if "priority-button-low" in el.classes then Low
    else Low
  }

  /** `getAddModalSelectedPriority()`: `low` when no option is active. */
  function AddModalSelectedPriority(active: Option<PriorityOption>): (r: string)
    ensures IsLevel(r)
    ensures active.None? ==> r == Low
  {
    if active.None? then Low else PriorityValueFromOption(active.value)
  }

  /** The button a level's priority button carries as its class. */
  function ButtonClass(p: string): string {
    "priority-button-" + p
  }

  /**
   * An option marked for a level by its class alone reads as that level,
   * unless a data attribute names another level.
   */
  lemma OptionClassRoundTrip(p: string, dataset: Option<string>)
    requires IsLevel(p)
    requires dataset.None? || !IsLevel(dataset.value)
    ensures PriorityValueFromOption(PriorityOption(dataset, {ButtonClass(p)})) == p
  {
    assert ButtonClass(Urgent) == "priority-button-urgent";
    assert ButtonClass(Medium) == "priority-button-medium";
    assert ButtonClass(Low) == "priority-button-low";
  }
}
