/**
 * The assignee dropdown of the task edit dialog: badge colours, the
 * dropdown items and their `selectedContacts` set, the badges container,
 * preselection of the task's users and reading the badges back into users.
 * `newModalContr.js` and `taskDataUtils.contacts.js` each define these
 * helpers. The colour a badge records is a parameter here, and the two
 * badge-click handlers, which look up the dropdown item differently, are
 * modelled one each. Elsewhere the model follows one copy: the
 * `taskDataUtils.contacts.js` one where a missing user list or name is
 * tolerated, the `newModalContr.js` one where badges are read back.
 */
module EditAssignees {
  import opened Wrappers
  import opened Text
  import Avatars

  /** The class prefix every profile badge class carries. */
  const BadgePrefix: string := "profile-badge-"
  const Floating: string := BadgePrefix + "floating-"

  /** The colours a floating badge class exists for. */
  datatype Color = Red | Orange | Blue | Purple | Green | Pink

  function ColorWord(c: Color): (w: string)
    ensures 3 <= |w| <= 6 && LowerLetters(w)
  {
    match c
    case Red => "red"
    case Orange => "orange"
    case Blue => "blue"
    case Purple => "purple"
    case Green => "green"
    case Pink => "pink"
  }

  /** The colour a lower-case word names, if any (the `switch` of `getBadgeClassFromAnyColor`). */
  function ColorOfWord(s: string): (r: Option<Color>)
    ensures r.Some? ==> ColorWord(r.value) == s
  {
    if s == "red" then Some(Red)
    else if s == "orange" then Some(Orange)
    else if s == "blue" then Some(Blue)
    else if s == "purple" then Some(Purple)
    else if s == "green" then Some(Green)
    else if s == "pink" then Some(Pink)
    else None
  }

  /** Every colour's word reads back as that colour. */
  lemma ColorWordRoundTrip(c: Color)
    ensures ColorOfWord(ColorWord(c)) == Some(c)
  {
  }

  /** The colour an upper-case hex code names (`getSimpleColor`'s `switch`). */
  function HexColor(u: string): Option<Color> {
    if u == "#F57C00" then Some(Orange)
    else if u == "#E74C3C" then Some(Red)
    else if u == "#5C6BC0" then Some(Blue)
    else if u == "#4CAF50" then Some(Green)
    else if u == "#8E44AD" then Some(Purple)
    else if u == "#EE00FF" then Some(Pink)
    else None
  }

  /** Lower-case ASCII letters only. */
  predicate LowerLetters(s: string) {
    forall k :: 0 <= k < |s| ==> 'a' <= s[k] <= 'z'
  }

  /** `getSimpleColor(colorValue)`: a known hex code becomes its colour name, any other hex code `default`. */
  function GetSimpleColor(c: string): (r: string)
    ensures !StartsWith(c, "#") ==> r == c
    ensures StartsWith(c, "#") ==> LowerLetters(r) && |r| <= 7
  {
    if StartsWith(c, "#") then
      match HexColor(ToUpper(c))
      case Some(x) => ColorWord(x)
      case None => DefaultWord()
    else c
  }

  /** The word `default`. */
  function DefaultWord(): (d: string)
    ensures |d| == 7 && LowerLetters(d)
  {
    "default"
  }

  /** A simple colour is final: naming it again changes nothing. */
  lemma GetSimpleColorIdempotent(c: string)
    ensures GetSimpleColor(GetSimpleColor(c)) == GetSimpleColor(c)
  {
    var r := GetSimpleColor(c);
    if StartsWith(c, "#") {
      assert !StartsWith(r, "#") by {
        assert 'a' <= r[0] <= 'z';
      }
    }
  }

  /** Hex codes are matched ignoring the case of their letters. */
  lemma GetSimpleColorIgnoresCase(c: string)
    requires StartsWith(c, "#")
    ensures GetSimpleColor(ToLower(c)) == GetSimpleColor(c)
  {
    var l := ToLower(c);
    assert l[0] == '#';
    assert ToUpper(l) == ToUpper(c) by {
      forall k | 0 <= k < |c| ensures ToUpper(l)[k] == ToUpper(c)[k] {
        assert UpperChar(LowerChar(c[k])) == UpperChar(c[k]);
      }
    }
  }

  lemma LowerLettersTrimmed(s: string)
    requires LowerLetters(s)
    ensures Trim(s) == s && ToLower(s) == s
  {
    TrimStartNoSpace(s);
    TrimEndNoSpace(s);
  }

  /** The colour a badge class names: the colour of the trimmed, lower-cased value, or none. */
  function ColorOfValue(c: string): Option<Color> {
    if c == "" then None else ColorOfWord(ToLower(Trim(c)))
  }

  /**
   * `getBadgeClassFromAnyColor(colorValue)`: an empty value reads as
   * `default`, a badge class is kept, and a colour name (trimmed, any
   * case) selects its floating badge class.
   */
  function GetBadgeClassFromAnyColor(c: string): (r: string)
    ensures StartsWith(r, BadgePrefix)
    ensures StartsWith(c, BadgePrefix) ==> r == c
    ensures !StartsWith(c, BadgePrefix) && ColorOfValue(c).Some? ==> r == Floating + ColorWord(ColorOfValue(c).value)
    ensures !StartsWith(c, BadgePrefix) && ColorOfValue(c).None? ==> r == Floating + DefaultWord()
  {
    var v := if c == "" then DefaultWord() else c;
    assert Floating[..|BadgePrefix|] == BadgePrefix;
    if StartsWith(v, BadgePrefix) then v
    else
      if c == "" then
        DefaultHasNoColor(v);
        Floating + DefaultWord()
      else
        match ColorOfWord(ToLower(Trim(v)))
        case Some(x) => Floating + ColorWord(x)
        case None => Floating + DefaultWord()
  }

  lemma DefaultHasNoColor(d: string)
    requires d == DefaultWord()
    ensures ColorOfWord(ToLower(Trim(d))).None?
  {
    LowerLettersTrimmed(d);
  }

  /** Mapping a badge class again keeps it. */
  lemma BadgeClassIdempotent(c: string)
    ensures GetBadgeClassFromAnyColor(GetBadgeClassFromAnyColor(c)) == GetBadgeClassFromAnyColor(c)
  {
  }

  /** `getBadgeClassFromColor(color)`: a missing colour reads as `default`. */
  function BadgeClassFromColor(color: Option<string>): (r: string)
    ensures StartsWith(r, BadgePrefix)
  {
    GetBadgeClassFromAnyColor(GetSimpleColor(ColorOrDefault(color)))
  }

  function ColorOrDefault(color: Option<string>): (r: string)
    ensures r != ""
    ensures color.Some? && color.value != "" ==> r == color.value
  {
    if color.None? || color.value == "" then DefaultWord() else color.value
  }

  /** A contact of the dropdown: its key, name and stored colour. */
  datatype Contact = Contact(id: string, name: string, color: Option<string>)

  /**
   * A dropdown item: its contact, the colour and initials a badge for it
   * records, and whether it is marked selected (class and checkbox).
   */
  datatype Item = Item(id: string, name: string, badgeColor: string, initials: string, marked: bool)

  /** A badge in `#assigneeBadges`: contact id, name, recorded colour (empty: none) and text. */
  datatype Badge = Badge(id: string, name: string, color: string, text: string)

  /** The colour a badge records: `newModalContr.js` keeps the simple colour, `taskDataUtils.contacts.js` none. */
  function RecordedColor(color: Option<string>, withColor: bool): string {
    if withColor then GetSimpleColor(ColorOrDefault(color)) else ""
  }

  /** `createDropdownItem(id, contact, …)`, marked when preselected. */
  function ItemOf(c: Contact, marked: bool, withColor: bool): Item {
    Item(c.id, c.name, RecordedColor(c.color, withColor), Avatars.GetInitials(c.name), marked)
  }

  /** The badge `createContactBadge` builds for an item's contact. */
  function BadgeOf(it: Item): Badge {
    Badge(it.id, it.name, it.badgeColor, it.initials)
  }

  predicate HasBadgeFor(badges: seq<Badge>, id: string, name: string) {
    exists k :: 0 <= k < |badges| && (badges[k].id == id || badges[k].name == name)
  }

  /** The items `populateContactEntries` appends, one per contact, marked when its name is assigned. */
  function ItemsOf(contacts: seq<Contact>, names: set<string>, withColor: bool): (r: seq<Item>)
    ensures |r| == |contacts|
  {
    if contacts == [] then []
    else
      var c := contacts[|contacts| - 1];
      ItemsOf(contacts[..|contacts| - 1], names, withColor) + [ItemOf(c, Assigned(c, names), withColor)]
  }

  /** Item `k` is contact `k`'s, marked exactly when its name is assigned. */
  lemma ItemsOfContacts(contacts: seq<Contact>, names: set<string>, withColor: bool)
    ensures var r := ItemsOf(contacts, names, withColor);
      forall k :: 0 <= k < |r| ==>
        r[k].id == contacts[k].id && r[k].name == contacts[k].name && (r[k].marked <==> Assigned(contacts[k], names))
  {
    var r := ItemsOf(contacts, names, withColor);
    forall k | 0 <= k < |r|
      ensures r[k].id == contacts[k].id && r[k].name == contacts[k].name && (r[k].marked <==> Assigned(contacts[k], names))
    {
      ItemAt(contacts, names, withColor, k);
    }
  }

  /** Item `k` is the one `createDropdownItem` builds for contact `k`. */
  lemma {:induction false} ItemAt(contacts: seq<Contact>, names: set<string>, withColor: bool, k: nat)
    requires k < |contacts|
    ensures ItemsOf(contacts, names, withColor)[k] == ItemOf(contacts[k], Assigned(contacts[k], names), withColor)
    decreases |contacts|
  {
    var init, c := contacts[..|contacts| - 1], contacts[|contacts| - 1];
    var prev, last := ItemsOf(init, names, withColor), ItemOf(c, Assigned(c, names), withColor);
    assert ItemsOf(contacts, names, withColor) == prev + [last];
    if k < |init| {
      ItemAt(init, names, withColor, k);
      assert init[k] == contacts[k];
      assert (prev + [last])[k] == prev[k];
    } else {
      assert contacts[k] == c;
      assert (prev + [last])[k] == last;
    }
  }

  /** One more contact appends its item. */
  lemma ItemsOfSnoc(contacts: seq<Contact>, names: set<string>, withColor: bool, i: nat)
    requires i < |contacts|
    ensures ItemsOf(contacts[..i + 1], names, withColor) ==
      ItemsOf(contacts[..i], names, withColor) + [ItemOf(contacts[i], Assigned(contacts[i], names), withColor)]
  {
    assert contacts[..i + 1][..i] == contacts[..i];
  }

  /** `createContactBadge(contact, id, container, …)`: nothing when a badge has that id or name. */
  function AddBadge(badges: seq<Badge>, b: Badge): (r: seq<Badge>)
    ensures HasBadgeFor(badges, b.id, b.name) ==> r == badges
    ensures !HasBadgeFor(badges, b.id, b.name) ==> r == badges + [b]
  {
    if HasBadgeFor(badges, b.id, b.name) then badges else badges + [b]
  }

  /** Badge ids and names are unique. */
  predicate BadgesUnique(badges: seq<Badge>) {
    forall i, j :: 0 <= i < j < |badges| ==> badges[i].id != badges[j].id && badges[i].name != badges[j].name
  }

  /** Adding a badge keeps ids and names unique, and afterwards the contact has one. */
  lemma AddBadgeUnique(badges: seq<Badge>, b: Badge)
    requires BadgesUnique(badges)
    ensures BadgesUnique(AddBadge(badges, b))
    ensures HasBadgeFor(AddBadge(badges, b), b.id, b.name)
  {
    if !HasBadgeFor(badges, b.id, b.name) {
      assert AddBadge(badges, b)[|badges|] == b;
    }
  }

  /** The badges without the one for `id` (`badge.remove()` after `querySelector`). */
  function WithoutBadge(badges: seq<Badge>, id: string): (r: seq<Badge>)
    ensures forall b :: b in r <==> b in badges && b.id != id
    ensures BadgesUnique(badges) ==> BadgesUnique(r)
  {
    if badges == [] then []
    else
      var rest := WithoutBadge(badges[..|badges| - 1], id);
      var last := badges[|badges| - 1];
      assert forall b :: b in badges <==> b in badges[..|badges| - 1] || b == last;
      if last.id == id then rest
      else
        assert BadgesUnique(badges) ==> forall b :: b in rest ==> b.id != last.id && b.name != last.name;
        rest + [last]
  }

  /** The key `createAssignedUserNamesSet` and `processContactEntry` compare: trimmed, lower case. */
  function NameKey(name: string): string {
    ToLower(Trim(name))
  }

  /** `u.name || ''` */
  function NameOr(name: Option<string>): string {
    if name.Some? then name.value else ""
  }

  /** `createAssignedUserNamesSet(assignedUsers)`: a missing list or name counts as empty. */
  function AssignedUserNames(users: Option<seq<Option<string>>>): (r: set<string>)
    ensures users.None? ==> r == {}
    ensures users.Some? ==> forall k :: 0 <= k < |users.value| ==>
      NameKey(NameOr(users.value[k])) in r
    ensures forall x :: x in r ==> users.Some? && exists k :: 0 <= k < |users.value| && x == NameKey(NameOr(users.value[k]))
  {
    if users.None? then {}
    else set k | 0 <= k < |users.value| :: NameKey(NameOr(users.value[k]))
  }

  /** A contact is preselected whatever padding and capitals the task's user name carries. */
  lemma ContactAssignedIgnoresCase(users: seq<Option<string>>, k: nat, contactName: string)
    requires k < |users| && users[k].Some?
    requires ToLower(Trim(users[k].value)) == ToLower(Trim(contactName))
    ensures NameKey(contactName) in AssignedUserNames(Some(users))
  {
  }

  /** The badges the marked items of a freshly filled dropdown leave, in item order. */
  function PreselectedBadges(items: seq<Item>): seq<Badge> {
    if items == [] then []
    else
      var prev := PreselectedBadges(items[..|items| - 1]);
      var it := items[|items| - 1];
      if it.marked then AddBadge(prev, BadgeOf(it)) else prev
  }

  /** Every marked item has a badge, by id or by an item of the same name, and every badge is a marked item's. */
  lemma PreselectedBadgesCover(items: seq<Item>)
    ensures BadgesUnique(PreselectedBadges(items))
    ensures forall k :: 0 <= k < |items| && items[k].marked ==> HasBadgeFor(PreselectedBadges(items), items[k].id, items[k].name)
    ensures forall b :: b in PreselectedBadges(items) ==> exists k :: 0 <= k < |items| && items[k].marked && b.id == items[k].id
  {
    PreselectedBadgesUnique(items);
    PreselectedBadgesHave(items);
    PreselectedBadgesFrom(items);
  }

  lemma {:induction false} PreselectedBadgesUnique(items: seq<Item>)
    ensures BadgesUnique(PreselectedBadges(items))
  {
    if items != [] {
      var init := items[..|items| - 1];
      var it := items[|items| - 1];
      PreselectedBadgesUnique(init);
      if it.marked {
        AddBadgeUnique(PreselectedBadges(init), BadgeOf(it));
      }
    }
  }

  lemma {:induction false} PreselectedBadgesHave(items: seq<Item>)
    ensures forall k :: 0 <= k < |items| && items[k].marked ==> HasBadgeFor(PreselectedBadges(items), items[k].id, items[k].name)
  {
    if items != [] {
      var init := items[..|items| - 1];
      var it := items[|items| - 1];
      PreselectedBadgesHave(init);
      var prev := PreselectedBadges(init);
      var r := PreselectedBadges(items);
      assert forall j :: 0 <= j < |prev| ==> r[j] == prev[j];
      if it.marked && !HasBadgeFor(prev, it.id, it.name) {
        assert r[|prev|] == BadgeOf(it);
      }
      forall k | 0 <= k < |init| && items[k].marked
        ensures HasBadgeFor(r, items[k].id, items[k].name)
      {
        assert items[k] == init[k];
        var j :| 0 <= j < |prev| && (prev[j].id == init[k].id || prev[j].name == init[k].name);
        assert r[j] == prev[j];
      }
    }
  }

  lemma {:induction false} PreselectedBadgesFrom(items: seq<Item>)
    ensures forall b :: b in PreselectedBadges(items) ==> exists k :: 0 <= k < |items| && items[k].marked && b.id == items[k].id
  {
    if items != [] {
      var init := items[..|items| - 1];
      var it := items[|items| - 1];
      PreselectedBadgesFrom(init);
      var prev := PreselectedBadges(init);
      forall b | b in PreselectedBadges(items)
        ensures exists k :: 0 <= k < |items| && items[k].marked && b.id == items[k].id
      {
        if b in prev {
          var k :| 0 <= k < |init| && init[k].marked && b.id == init[k].id;
          assert items[k] == init[k];
        } else {
          assert b == BadgeOf(it) && items[|items| - 1] == it;
        }
      }
    }
  }

  /** The ids of the preselected contacts. */
  function PreselectedIds(contacts: seq<Contact>, names: set<string>): set<string> {
    set k | 0 <= k < |contacts| && Assigned(contacts[k], names) :: contacts[k].id
  }

  /** The contact's name matches an assigned user. */
  predicate Assigned(c: Contact, names: set<string>) {
    NameKey(c.name) in names
  }

  /** Item ids are the keys of the contacts object, so they are unique. */
  predicate DistinctIds(contacts: seq<Contact>) {
    forall i, j :: 0 <= i < j < |contacts| ==> contacts[i].id != contacts[j].id
  }

  /** The user a badge reads back as: its name, else its trimmed text; `default` when it has no colour. */
  datatype AssigneeUser = AssigneeUser(name: string, color: string)

  /** `extractUserFromBadge(badge)` */
  function ExtractUserFromBadge(b: Badge): (r: Option<AssigneeUser>)
    ensures r.Some? ==> r.value.name != "" && r.value.color != ""
    ensures b.name != "" ==> r == Some(AssigneeUser(b.name, if b.color != "" then b.color else DefaultWord()))
  {
    var name := if b.name != "" then b.name else Trim(b.text);
    if name == "" then None else Some(AssigneeUser(name, if b.color != "" then b.color else DefaultWord()))
  }

  /** Some user read so far has name `x`. */
  predicate Named(users: seq<AssigneeUser>, x: string) {
    x in UserNames(users)
  }

  function UserNames(users: seq<AssigneeUser>): (r: seq<string>)
    ensures |r| == |users| && forall k :: 0 <= k < |r| ==> r[k] == users[k].name
  {
    seq(|users|, k requires 0 <= k < |users| => users[k].name)
  }

  lemma NamedSnoc(users: seq<AssigneeUser>, u: AssigneeUser)
    ensures forall x :: Named(users + [u], x) <==> Named(users, x) || x == u.name
  {
    assert UserNames(users + [u]) == UserNames(users) + [u.name];
  }

  /** The users read from the badges, the first per name. */
  function ReadAssignees(badges: seq<Badge>): (r: seq<AssigneeUser>)
    ensures |r| <= |badges|
  {
    if badges == [] then []
    else
      var prev := ReadAssignees(badges[..|badges| - 1]);
      var u := ExtractUserFromBadge(badges[|badges| - 1]);
      if u.Some? && !Named(prev, u.value.name) then prev + [u.value] else prev
  }

  lemma ReadAssigneesStep(badges: seq<Badge>)
    requires badges != []
    ensures var prev := ReadAssignees(badges[..|badges| - 1]);
      forall j :: 0 <= j < |prev| ==> ReadAssignees(badges)[j] == prev[j]
  {
  }

  /** Read-back users have distinct names. */
  lemma {:induction false} ReadAssigneesDistinct(badges: seq<Badge>)
    ensures forall i, j :: 0 <= i < j < |ReadAssignees(badges)| ==> ReadAssignees(badges)[i].name != ReadAssignees(badges)[j].name
  {
    if badges != [] {
      ReadAssigneesDistinct(badges[..|badges| - 1]);
    }
  }

  /** Every read-back user is the user of some badge. */
  lemma {:induction false} ReadAssigneesAreBadgeUsers(badges: seq<Badge>)
    ensures forall u :: u in ReadAssignees(badges) ==> exists k :: 0 <= k < |badges| && ExtractUserFromBadge(badges[k]) == Some(u)
  {
    if badges != [] {
      var init := badges[..|badges| - 1];
      ReadAssigneesAreBadgeUsers(init);
      var prev := ReadAssignees(init);
      forall v | v in ReadAssignees(badges)
        ensures exists k :: 0 <= k < |badges| && ExtractUserFromBadge(badges[k]) == Some(v)
      {
        if v in prev {
          var k :| 0 <= k < |init| && ExtractUserFromBadge(init[k]) == Some(v);
          assert badges[k] == init[k];
        } else {
          assert ExtractUserFromBadge(badges[|badges| - 1]) == Some(v);
        }
      }
    }
  }

  /** No badge's user is lost: its name is among the read-back names. */
  lemma {:induction false} ReadAssigneesCover(badges: seq<Badge>)
    ensures forall k :: 0 <= k < |badges| && ExtractUserFromBadge(badges[k]).Some? ==>
      Named(ReadAssignees(badges), ExtractUserFromBadge(badges[k]).value.name)
  {
    if badges != [] {
      var init := badges[..|badges| - 1];
      forall k | 0 <= k < |badges| && ExtractUserFromBadge(badges[k]).Some?
        ensures Named(ReadAssignees(badges), ExtractUserFromBadge(badges[k]).value.name)
      {
        if k < |init| {
          ReadAssigneesCover(init);
        }
        ReadAssigneesCoverStep(badges, k);
      }
    }
  }

  lemma ReadAssigneesCoverStep(badges: seq<Badge>, k: nat)
    requires k < |badges| && ExtractUserFromBadge(badges[k]).Some?
    requires k < |badges| - 1 ==> Named(ReadAssignees(badges[..|badges| - 1]), ExtractUserFromBadge(badges[..|badges| - 1][k]).value.name)
    ensures Named(ReadAssignees(badges), ExtractUserFromBadge(badges[k]).value.name)
  {
    ReadAssigneesGrow(badges);
    if k < |badges| - 1 {
      assert badges[..|badges| - 1][k] == badges[k];
    }
  }

  /** Reading one more badge keeps every name read so far and adds the new badge's user. */
  lemma ReadAssigneesGrow(badges: seq<Badge>)
    requires badges != []
    ensures forall x :: Named(ReadAssignees(badges[..|badges| - 1]), x) ==> Named(ReadAssignees(badges), x)
    ensures var u := ExtractUserFromBadge(badges[|badges| - 1]); u.Some? ==> Named(ReadAssignees(badges), u.value.name)
  {
    var prev := ReadAssignees(badges[..|badges| - 1]);
    var u := ExtractUserFromBadge(badges[|badges| - 1]);
    if u.Some? {
      NamedSnoc(prev, u.value);
    }
  }

  /** Badges with distinct, non-empty names read back one user each, in order. */
  lemma {:induction false} ReadAssigneesOfUniqueBadges(badges: seq<Badge>)
    requires BadgesUnique(badges)
    requires forall k :: 0 <= k < |badges| ==> badges[k].name != ""
    ensures UserNames(ReadAssignees(badges)) == seq(|badges|, k requires 0 <= k < |badges| => badges[k].name)
  {
    if badges != [] {
      var init := badges[..|badges| - 1];
      ReadAssigneesOfUniqueBadges(init);
      var last := badges[|badges| - 1];
      assert !Named(ReadAssignees(init), last.name) by {
        forall i | 0 <= i < |init| ensures init[i].name != last.name {
        }
      }
    }
  }

  /** `readAssigneesFromBadges()`: a walk over the badges with a `seen` set of names. */
  method ReadAssigneesFromBadges(badges: seq<Badge>) returns (users: seq<AssigneeUser>)
    ensures users == ReadAssignees(badges)
  {
    users := [];
    var seen: set<string> := {};
    for i := 0 to |badges|
      invariant users == ReadAssignees(badges[..i])
      invariant forall x :: x in seen <==> Named(users, x)
    {
      assert badges[..i + 1][..i] == badges[..i];
      var user := ExtractUserFromBadge(badges[i]);
      if user.Some? && user.value.name !in seen {
        seen := seen + {user.value.name};
        NamedSnoc(users, user.value);
        users := users + [user.value];
      }
    }
    assert badges[..|badges|] == badges;
  }

  /** Every marked item's contact is in `selectedContacts` and the other way round for listed items. */
  predicate ItemsSynced(items: seq<Item>, selected: set<string>) {
    forall k :: 0 <= k < |items| ==> (items[k].marked <==> items[k].id in selected)
  }

  /** What a badge click leaves when the item lookup finds nothing: the row stays marked. */
  lemma StaleMarkAsWritten(items: seq<Item>, selected: set<string>, k: nat)
    requires ItemsSynced(items, selected) && k < |items| && items[k].marked
    ensures !ItemsSynced(items, selected - {items[k].id})
  {
  }

  lemma PreselectedBadgesSnoc(items: seq<Item>, it: Item)
    ensures PreselectedBadges(items + [it]) ==
      if it.marked then AddBadge(PreselectedBadges(items), BadgeOf(it)) else PreselectedBadges(items)
  {
    assert (items + [it])[..|items|] == items;
  }

  /** Appending contact `i` extends the items, the selected ids and the badges as the first `i + 1` contacts give them. */
  lemma PopulateStep(contacts: seq<Contact>, names: set<string>, withColor: bool, i: nat)
    requires i < |contacts|
    ensures var c := contacts[i];
      var it := ItemOf(c, Assigned(c, names), withColor);
      var its := ItemsOf(contacts[..i], names, withColor);
      && ItemsOf(contacts[..i + 1], names, withColor) == its + [it]
      && PreselectedIds(contacts[..i + 1], names) == PreselectedIds(contacts[..i], names) + (if it.marked then {c.id} else {})
      && PreselectedBadges(its + [it]) == if it.marked then AddBadge(PreselectedBadges(its), BadgeOf(it)) else PreselectedBadges(its)
  {
    ItemsOfSnoc(contacts, names, withColor, i);
    PreselectedIdsStep(contacts, i, names);
    var c := contacts[i];
    PreselectedBadgesSnoc(ItemsOf(contacts[..i], names, withColor), ItemOf(c, Assigned(c, names), withColor));
  }

  lemma PreselectedIdsStep(contacts: seq<Contact>, i: nat, names: set<string>)
    requires i < |contacts|
    ensures PreselectedIds(contacts[..i + 1], names) ==
      PreselectedIds(contacts[..i], names) + (if Assigned(contacts[i], names) then {contacts[i].id} else {})
  {
    var c := contacts[i];
    var a := PreselectedIds(contacts[..i + 1], names);
    var b := PreselectedIds(contacts[..i], names) + (if Assigned(c, names) then {c.id} else {});
    forall x | x in a ensures x in b {
      var k :| 0 <= k < i + 1 && Assigned(contacts[..i + 1][k], names) && contacts[..i + 1][k].id == x;
      if k < i {
        assert contacts[..i][k] == contacts[..i + 1][k];
      }
    }
    forall x | x in b ensures x in a {
      if x in PreselectedIds(contacts[..i], names) {
        var k :| 0 <= k < i && Assigned(contacts[..i][k], names) && contacts[..i][k].id == x;
        assert contacts[..i + 1][k] == contacts[..i][k];
      } else {
        assert contacts[..i + 1][i] == c;
      }
    }
    assert a == b;
  }

  /** A freshly filled dropdown is consistent: marked items are exactly the selected contacts, badges belong to them. */
  lemma PopulatedValid(contacts: seq<Contact>, names: set<string>, items: seq<Item>)
    requires DistinctIds(contacts) && |items| == |contacts|
    requires forall k :: 0 <= k < |items| ==> items[k].id == contacts[k].id && (items[k].marked <==> Assigned(contacts[k], names))
    ensures ItemsSynced(items, PreselectedIds(contacts, names))
    ensures forall i, j :: 0 <= i < j < |items| ==> items[i].id != items[j].id
    ensures BadgesUnique(PreselectedBadges(items))
    ensures forall b :: b in PreselectedBadges(items) ==> b.id in PreselectedIds(contacts, names)
  {
    PreselectedBadgesCover(items);
  }

  /** Dropping badge `j` keeps the rest unique and removes its contact's only badge. */
  lemma RemoveBadgeAt(badges: seq<Badge>, j: nat)
    requires BadgesUnique(badges) && j < |badges|
    ensures BadgesUnique(badges[..j] + badges[j + 1..])
    ensures forall b :: b in badges[..j] + badges[j + 1..] ==> b in badges && b.id != badges[j].id
  {
    var rest := badges[..j] + badges[j + 1..];
    forall i | 0 <= i < |rest|
      ensures rest[i] == badges[if i < j then i else i + 1]
    {
    }
  }

  /** The items with every item of contact `id` unmarked. */
  function UnmarkId(items: seq<Item>, id: string): (r: seq<Item>)
    ensures |r| == |items|
    ensures forall k :: 0 <= k < |r| ==> r[k] == if items[k].id == id then items[k].(marked := false) else items[k]
  {
    seq(|items|, k requires 0 <= k < |items| => if items[k].id == id then items[k].(marked := false) else items[k])
  }

  /** Unmarking the items of a deselected contact keeps the items in step with the set. */
  lemma UnmarkIdSynced(items: seq<Item>, selected: set<string>, id: string)
    requires ItemsSynced(items, selected)
    ensures ItemsSynced(UnmarkId(items, id), selected - {id})
  {
  }

  /**
   * The text `findDropdownItemByName` compares for an item: that of its
   * `.contact-name` element. `generateDropdownItemHTML` puts the name in a
   * `.contact-name-edit` span, so no item has one and the text is
   * `undefined` (`None`).
   */
  function ContactNameText(it: Item): Option<string> {
    None
  }

  /** `findDropdownItemByName(dropdownList, contactName)`: the first item whose text is `contactName`. */
  function FindItemByName(items: seq<Item>, contactName: Option<string>): (r: Option<nat>)
    ensures r.Some? ==> r.value < |items| && ContactNameText(items[r.value]) == contactName
    ensures r.Some? ==> forall k :: 0 <= k < r.value ==> ContactNameText(items[k]) != contactName
    ensures r.None? ==> forall k :: 0 <= k < |items| ==> ContactNameText(items[k]) != contactName
  {
    FindItemFrom(items, contactName, 0)
  }

  /** The `find` from item `i` on. */
  function FindItemFrom(items: seq<Item>, contactName: Option<string>, i: nat): (r: Option<nat>)
    requires i <= |items|
    ensures r.Some? ==> i <= r.value < |items| && ContactNameText(items[r.value]) == contactName
    ensures r.Some? ==> forall k :: i <= k < r.value ==> ContactNameText(items[k]) != contactName
    ensures r.None? ==> forall k :: i <= k < |items| ==> ContactNameText(items[k]) != contactName
    decreases |items| - i
  {
    if i == |items| then None
    else if ContactNameText(items[i]) == contactName then Some(i)
    else FindItemFrom(items, contactName, i + 1)
  }

  /** `deselectDropdownItem(contact)` as written: the item the lookup by name finds, if any, is unmarked. */
  function DeselectByNameAsWritten(items: seq<Item>, contactName: Option<string>): (r: seq<Item>)
    ensures |r| == |items|
  {
    match FindItemByName(items, contactName)
    case None => items
    case Some(k) => items[k := items[k].(marked := false)]
  }

  /**
   * As written, deselecting a contact that has a name changes no item:
   * its item stays marked while the contact has left the set.
   */
  lemma NamedDeselectKeepsMark(items: seq<Item>, selected: set<string>, k: nat, name: string)
    requires ItemsSynced(items, selected) && k < |items| && items[k].marked
    ensures DeselectByNameAsWritten(items, Some(name)) == items
    ensures !ItemsSynced(DeselectByNameAsWritten(items, Some(name)), selected - {items[k].id})
  {
  }

  /**
   * As written, deselecting a contact without a name unmarks the first
   * item whatever contact it belongs to; when that is another, still
   * selected contact, items and set disagree.
   */
  lemma NamelessDeselectUnmarksFirst(items: seq<Item>, selected: set<string>, id: string)
    requires ItemsSynced(items, selected) && items != [] && items[0].marked && items[0].id != id
    ensures var r := DeselectByNameAsWritten(items, None);
      !r[0].marked && r[1..] == items[1..] && !ItemsSynced(r, selected - {id})
  {
  }

  /** The loop of `populateContactEntries`: items, selected ids and badges for the contacts in order. */
  method FillEntries(contacts: seq<Contact>, names: set<string>, withColor: bool)
      returns (sel: set<string>, its: seq<Item>, bs: seq<Badge>)
    ensures its == ItemsOf(contacts, names, withColor)
    ensures sel == PreselectedIds(contacts, names)
    ensures bs == PreselectedBadges(its)
  {
    sel, its, bs := {}, [], [];
    for i := 0 to |contacts|
      invariant its == ItemsOf(contacts[..i], names, withColor)
      invariant sel == PreselectedIds(contacts[..i], names)
      invariant bs == PreselectedBadges(its)
    {
      var c := contacts[i];
      var isAssigned := Assigned(c, names);
      var it := ItemOf(c, isAssigned, withColor);
      PopulateStep(contacts, names, withColor, i);
      if isAssigned {
        sel := sel + {c.id};
        bs := AddBadge(bs, BadgeOf(it));
      }
      its := its + [it];
    }
    assert contacts[..|contacts|] == contacts;
  }

  /** The dropdown of the edit dialog. */
  class AssigneeDropdown {
    var selected: set<string>
    var items: seq<Item>
    var badges: seq<Badge>
    /** Whether badges record their colour (`newModalContr.js`) or not (`taskDataUtils.contacts.js`). */
    const withColor: bool

    predicate Valid()
      reads this
    {
      ItemsSynced(items, selected)
      && (forall i, j :: 0 <= i < j < |items| ==> items[i].id != items[j].id)
      && BadgesUnique(badges)
      && forall b :: b in badges ==> b.id in selected
    }

    /** `clearAssigneeContainers(elements)` and a fresh `selectedContacts`. */
    constructor (withColor: bool)
      ensures Valid() && selected == {} && items == [] && badges == [] && this.withColor == withColor
    {
      this.withColor := withColor;
      selected, items, badges := {}, [], [];
    }

    /**
     * `populateContactEntries` / `processContactEntry`: one item per
     * contact, and the contacts whose name matches an assigned user
     * selected, checked and given a badge.
     */
    method Populate(contacts: seq<Contact>, names: set<string>)
      requires DistinctIds(contacts)
      modifies this`selected, this`items, this`badges
      ensures Valid()
      ensures items == ItemsOf(contacts, names, withColor)
      ensures selected == PreselectedIds(contacts, names)
      ensures badges == PreselectedBadges(items)
    {
      var sel, its, bs := FillEntries(contacts, names, withColor);
      ItemsOfContacts(contacts, names, withColor);
      PopulatedValid(contacts, names, its);
      selected, items, badges := sel, its, bs;
    }

    /** `handleDropdownSelection(item, id, …)`: a click on item `k` selects or deselects its contact. */
    method HandleDropdownSelection(k: nat)
      requires Valid() && k < |items|
      modifies this`selected, this`items, this`badges
      ensures Valid()
      ensures var id := old(items[k].id);
        (id in selected <==> id !in old(selected))
        && selected == (if id in old(selected) then old(selected) - {id} else old(selected) + {id})
      ensures |items| == |old(items)| && items[k].marked == !old(items[k].marked)
      ensures forall j :: 0 <= j < |items| && j != k ==> items[j] == old(items[j])
      ensures old(items[k].id) in old(selected) ==> badges == WithoutBadge(old(badges), old(items[k].id))
      ensures old(items[k].id) !in old(selected) ==> badges == AddBadge(old(badges), BadgeOf(old(items[k])))
    {
      var it := items[k];
      if it.id !in selected {
        selected := selected + {it.id};
        AddBadgeUnique(badges, BadgeOf(it));
        badges := AddBadge(badges, BadgeOf(it));
        items := items[k := it.(marked := true)];
      } else {
        selected := selected - {it.id};
        badges := WithoutBadge(badges, it.id);
        items := items[k := it.(marked := false)];
      }
    }

    /**
     * A click on badge `j` as written: the badge goes and its contact
     * leaves `selectedContacts`, but the item lookup matches no element,
     * so the item stays marked.
     */
    method BadgeClickAsWritten(j: nat)
      requires Valid() && j < |badges|
      modifies this`selected, this`badges
      ensures selected == old(selected) - {old(badges[j].id)}
      ensures badges == old(badges[..j]) + old(badges[j + 1..])
      ensures forall k :: 0 <= k < |items| && items[k].id == old(badges[j].id) ==> items[k].marked && items[k].id !in selected
    {
      var id := badges[j].id;
      assert badges[j] in badges;
      badges := badges[..j] + badges[j + 1..];
      selected := selected - {id};
    }

    /**
     * A click on badge `j` in the `taskDataUtils.contacts.js` copy as
     * written: the badge goes, its contact leaves `selectedContacts`, and
     * the item found by `findDropdownItemByName` is unmarked.
     * `contactName` is the `name` field of the contact the handler holds
     * (`None`: missing), which the badge records as its name.
     */
    method BadgeClickByNameAsWritten(j: nat, contactName: Option<string>)
      requires Valid() && j < |badges| && NameOr(contactName) == badges[j].name
      modifies this`selected, this`badges, this`items
      ensures selected == old(selected) - {old(badges[j].id)}
      ensures badges == old(badges[..j]) + old(badges[j + 1..])
      ensures items == DeselectByNameAsWritten(old(items), contactName)
    {
      var id := badges[j].id;
      badges := badges[..j] + badges[j + 1..];
      selected := selected - {id};
      items := DeselectByNameAsWritten(items, contactName);
    }

    /** A click on badge `j`, with the item of its contact unmarked as intended. */
    method BadgeClick(j: nat)
      requires Valid() && j < |badges|
      modifies this`selected, this`badges, this`items
      ensures Valid()
      ensures selected == old(selected) - {old(badges[j].id)}
      ensures badges == old(badges[..j]) + old(badges[j + 1..])
      ensures items == UnmarkId(old(items), old(badges[j].id))
    {
      var id := badges[j].id;
      RemoveBadgeAt(badges, j);
      badges := badges[..j] + badges[j + 1..];
      selected := selected - {id};
      UnmarkIdSynced(items, selected + {id}, id);
      items := UnmarkId(items, id);
    }
  }
}
