/**
 * The "assigned to" part of the add-task modal: the profile badges of the
 * chosen contacts (at most five shown, the rest folded into one "+N"
 * badge) and the dropdown whose checkboxes mirror them.
 */
module AssignedContacts {
  import Avatars

  /** A child of the profiles container: a contact's badge, or the "+N" badge. */
  datatype Child =
    | Assigned(name: string, initials: string, avatarClass: string, shown: bool)
    | MoreBadge(count: nat)

  /** A row of the dropdown; `hasCheckbox` is false for a row whose checkbox is missing. */
  datatype DropdownItem = DropdownItem(name: string, initials: string, avatarClass: string, hasCheckbox: bool)

  /** The names of the assigned badges, in container order. */
  function Names(children: seq<Child>): (r: seq<string>)
    ensures |r| <= |children|
  {
    if children == [] then []
    else
      var rest := Names(children[..|children| - 1]);
      var last := children[|children| - 1];
      if last.Assigned? then rest + [last.name] else rest
  }

  predicate Distinct(names: seq<string>) {
    forall i, j :: 0 <= i < j < |names| ==> names[i] != names[j]
  }

  /** The contact badges, all shown, without any "+N" badge. */
  function Profiles(children: seq<Child>): (r: seq<Child>)
    ensures |r| <= |children|
    ensures forall k :: 0 <= k < |r| ==> r[k].Assigned? && r[k].shown
  {
    if children == [] then []
    else
      var rest := Profiles(children[..|children| - 1]);
      var last := children[|children| - 1];
      if last.Assigned? then rest + [last.(shown := true)] else rest
  }

  lemma {:induction false} ProfilesKeepNames(children: seq<Child>)
    ensures Names(Profiles(children)) == Names(children)
    decreases |children|
  {
    if children != [] {
      var init := children[..|children| - 1];
      var p := Profiles(init);
      ProfilesKeepNames(init);
      var last := children[|children| - 1];
      if last.Assigned? {
        NamesSnoc(p, last.(shown := true));
      }
    }
  }

  lemma NamesSnoc(c: seq<Child>, x: Child)
    ensures Names(c + [x]) == if x.Assigned? then Names(c) + [x.name] else Names(c)
  {
    assert (c + [x])[..|c|] == c;
  }

  /** The container after `updateAssignedBadgesView` over these badges. */
  function BadgesView(ps: seq<Child>): (r: seq<Child>)
    requires forall k :: 0 <= k < |ps| ==> ps[k].Assigned?
  {
    seq(|ps|, k requires 0 <= k < |ps| => ps[k].(shown := k < 5))
      + (if |ps| > 5 then [MoreBadge(|ps| - 5)] else [])
  }

  function CountShown(children: seq<Child>): (n: nat)
    ensures n <= |children|
  {
    if children == [] then 0
    else CountShown(children[..|children| - 1]) + (if children[|children| - 1].Assigned? && children[|children| - 1].shown then 1 else 0)
  }

  /** The counts of the "+N" badges in the container. */
  function MoreCounts(children: seq<Child>): seq<nat> {
    if children == [] then []
    else
      var rest := MoreCounts(children[..|children| - 1]);
      var last := children[|children| - 1];
      if last.MoreBadge? then rest + [last.count] else rest
  }

  lemma {:induction false} ShownPrefix(ps: seq<Child>, n: nat)
    requires n <= |ps| && forall k :: 0 <= k < |ps| ==> ps[k].Assigned?
    ensures CountShown(BadgesView(ps)[..n]) == if n < 5 then n else 5
    ensures MoreCounts(BadgesView(ps)[..n]) == []
    decreases n
  {
    if n > 0 {
      var v := BadgesView(ps);
      assert v[..n][..n - 1] == v[..n - 1];
      ShownPrefix(ps, n - 1);
    }
  }

  /**
   * The view shows the first five badges (all of them when there are at
   * most five) and carries exactly one "+N" badge, with N the number of
   * hidden badges, exactly when there are more than five.
   */
  lemma BadgesViewCounts(ps: seq<Child>)
    requires forall k :: 0 <= k < |ps| ==> ps[k].Assigned?
    ensures CountShown(BadgesView(ps)) == if |ps| <= 5 then |ps| else 5
    ensures MoreCounts(BadgesView(ps)) == if |ps| > 5 then [|ps| - 5] else []
  {
    var v := BadgesView(ps);
    ShownPrefix(ps, |ps|);
    if |ps| > 5 {
      assert v[..|ps|] == v[..|v| - 1];
    } else {
      assert v[..|ps|] == v;
    }
  }

  lemma {:induction false} ProfilesOfView(ps: seq<Child>, n: nat)
    requires n <= |ps| && forall k :: 0 <= k < |ps| ==> ps[k].Assigned? && ps[k].shown
    ensures Profiles(BadgesView(ps)[..n]) == ps[..n]
    decreases n
  {
    if n > 0 {
      var v := BadgesView(ps);
      assert v[..n][..n - 1] == v[..n - 1];
      ProfilesOfView(ps, n - 1);
      assert ps[..n] == ps[..n - 1] + [ps[n - 1]];
    }
  }

  /** Running the view again over its own result changes nothing: the stale "+N" badge is removed first. */
  lemma BadgesViewIdempotent(children: seq<Child>)
    ensures BadgesView(Profiles(BadgesView(Profiles(children)))) == BadgesView(Profiles(children))
  {
    var ps := Profiles(children);
    var v := BadgesView(ps);
    ProfilesOfView(ps, |ps|);
    if |ps| > 5 {
      assert v[..|ps|] + [MoreBadge(|ps| - 5)] == v;
      ProfilesSkipMore(v[..|ps|], |ps| - 5);
    } else {
      assert v[..|ps|] == v;
    }
    assert ps[..|ps|] == ps;
  }

  lemma ProfilesSkipMore(c: seq<Child>, n: nat)
    ensures Profiles(c + [MoreBadge(n)]) == Profiles(c)
  {
    assert (c + [MoreBadge(n)])[..|c|] == c;
  }

  /** The contact badges of the container and the dropdown of the modal. */
  class AssignedContacts {
    const containerPresent: bool
    var children: seq<Child>
    const items: seq<DropdownItem>
    var checked: seq<bool>

    /** Each contact has at most one badge, and each row one checkbox state. */
    predicate Valid()
      reads this
    {
      |checked| == |items| && Distinct(Names(children)) && (!containerPresent ==> children == [])
    }

    /** The dropdown filled from the contacts (`populateContactDropdown`), nobody assigned yet. */
    constructor (containerPresent: bool, contactNames: seq<string>)
      ensures Valid() && this.containerPresent == containerPresent && children == []
      ensures |items| == |contactNames|
      ensures forall k :: 0 <= k < |items| ==>
        items[k] == DropdownItem(contactNames[k], Avatars.GetInitials(contactNames[k]), Avatars.GetAvatarClass(contactNames[k]), true)
      ensures forall k :: 0 <= k < |checked| ==> !checked[k]
    {
      this.containerPresent := containerPresent;
      children := [];
      items := seq(|contactNames|, k requires 0 <= k < |contactNames| =>
        DropdownItem(contactNames[k], Avatars.GetInitials(contactNames[k]), Avatars.GetAvatarClass(contactNames[k]), true));
      checked := seq(|contactNames|, k => false);
    }

    /** `updateAssignedBadgesView()` */
    method UpdateAssignedBadgesView()
      requires Valid()
      modifies this`children
      ensures Valid()
      ensures children == BadgesView(Profiles(old(children)))
      ensures Names(children) == Names(old(children))
    {
      if !containerPresent {
        return;
      }
      var kept: seq<Child> := [];
      for i := 0 to |children|
        invariant kept == Profiles(children[..i])
      {
        assert children[..i + 1][..i] == children[..i];
        if children[i].Assigned? {
          kept := kept + [children[i].(shown := true)];
        }
      }
      assert children[..|children|] == children;
      var view := kept;
      if |kept| > 5 {
        for i := 5 to |kept|
          invariant |view| == |kept|
          invariant forall k :: 0 <= k < |kept| ==> view[k] == kept[k].(shown := k < 5 || k >= i)
        {
          view := view[i := view[i].(shown := false)];
        }
        view := view + [MoreBadge(|kept| - 5)];
      }
      assert view == BadgesView(kept);
      ProfilesOfView(kept, |kept|);
      ViewKeepsNames(kept);
      ProfilesKeepNames(children);
      children := view;
    }

    /** `addContactToAssigned(contactName, initials, avatarClass)`: a badge for a contact that has none. */
    method AddContactToAssigned(name: string, initials: string, avatarClass: string)
      requires Valid()
      modifies this`children
      ensures Valid()
      ensures !containerPresent || name in Names(old(children)) ==> children == old(children)
      ensures containerPresent && name !in Names(old(children)) ==> Names(children) == Names(old(children)) + [name]
    {
      if !containerPresent {
        return;
      }
      if name in Names(children) {
        return;
      }
      NamesSnoc(children, Assigned(name, initials, avatarClass, true));
      children := children + [Assigned(name, initials, avatarClass, true)];
      UpdateAssignedBadgesView();
    }

    /** `removeContactFromAssigned(contactName)`: the contact's badge, if any, is gone. */
    method RemoveContactFromAssigned(name: string)
      requires Valid()
      modifies this`children
      ensures Valid()
      ensures name !in Names(children)
      ensures forall x :: x in Names(children) <==> x in Names(old(children)) && x != name
    {
      if !containerPresent {
        return;
      }
      var i := FirstBadge(children, name);
      NamesMembership(children, name);
      if i < |children| {
        RemoveChild(children, i);
        children := children[..i] + children[i + 1..];
      }
      UpdateAssignedBadgesView();
    }

    /** Clicking an assigned badge removes it, then resyncs the dropdown and the view. */
    method ProfileClick(i: nat)
      requires Valid() && i < |children| && children[i].Assigned?
      modifies this`children, this`checked
      ensures Valid()
      ensures forall x :: x in Names(children) <==> x in Names(old(children)) && x != old(children[i].name)
    {
      RemoveChild(children, i);
      children := children[..i] + children[i + 1..];
      UpdateDropdownStates();
      UpdateAssignedBadgesView();
    }

    /** `updateDropdownStates()`: each checkbox is checked exactly when its contact has a badge. */
    method UpdateDropdownStates()
      requires Valid()
      modifies this`checked
      ensures Valid()
      ensures forall k :: 0 <= k < |items| ==>
        checked[k] == if items[k].hasCheckbox then items[k].name in Names(children) else old(checked[k])
    {
      var names := Names(children);
      for k := 0 to |items|
        invariant |checked| == |items|
        invariant forall j :: 0 <= j < k ==>
          checked[j] == if items[j].hasCheckbox then items[j].name in names else old(checked[j])
        invariant forall j :: k <= j < |items| ==> checked[j] == old(checked[j])
      {
        if items[k].hasCheckbox {
          checked := checked[k := items[k].name in names];
        }
      }
    }

    /** The checkbox's `change` handler. */
    method OnCheckboxChange(k: nat)
      requires Valid() && k < |items| && items[k].hasCheckbox
      modifies this`children, this`checked
      ensures Valid()
      ensures checked[k] <==> items[k].name in Names(children)
      ensures old(checked[k]) && containerPresent ==> items[k].name in Names(children)
      ensures old(checked[k]) ==> Names(children) == Names(old(children)) || Names(children) == Names(old(children)) + [items[k].name]
      ensures !old(checked[k]) ==> items[k].name !in Names(children)
    {
      var item := items[k];
      if checked[k] {
        AddContactToAssigned(item.name, item.initials, item.avatarClass);
      } else {
        RemoveContactFromAssigned(item.name);
      }
      UpdateDropdownStates();
    }

    /**
     * A click on a row outside its checkbox: flip the checkbox, dispatch
     * `change`, then add or remove once more by what the flip did; the
     * second add finds the badge the change handler made.
     * `foundClass` is the avatar class read back from the row.
     */
    method ItemClick(k: nat, onInput: bool, foundClass: string)
      requires Valid() && k < |items| && items[k].hasCheckbox
      modifies this`children, this`checked
      ensures Valid()
      ensures onInput ==> children == old(children) && checked == old(checked)
      ensures !onInput && !old(checked[k]) && containerPresent ==> Names(children) == Names(old(children)) || Names(children) == Names(old(children)) + [items[k].name]
      ensures !onInput && !old(checked[k]) && containerPresent ==> items[k].name in Names(children)
      ensures !onInput && old(checked[k]) ==> items[k].name !in Names(children)
    {
      if onInput {
        return;
      }
      var wasChecked := checked[k];
      checked := checked[k := !checked[k]];
      OnCheckboxChange(k);
      var item := items[k];
      if checked[k] && !wasChecked {
        AddContactToAssigned(item.name, item.initials, foundClass);
      } else if !checked[k] && wasChecked {
        RemoveContactFromAssigned(item.name);
      }
      UpdateDropdownStates();
    }
  }

  /** The index of the first badge for `name`, or `|children|`. */
  function FirstBadge(children: seq<Child>, name: string): (i: nat)
    ensures i <= |children|
    ensures i < |children| ==> children[i].Assigned? && children[i].name == name
    ensures forall j :: 0 <= j < i ==> !(children[j].Assigned? && children[j].name == name)
  {
    if children == [] then 0
    else if children[0].Assigned? && children[0].name == name then 0
    else 1 + FirstBadge(children[1..], name)
  }

  lemma {:induction false} NamesMembership(children: seq<Child>, x: string)
    ensures x in Names(children) <==> exists j :: 0 <= j < |children| && children[j].Assigned? && children[j].name == x
    decreases |children|
  {
    if children != [] {
      var init := children[..|children| - 1];
      NamesMembership(init, x);
      assert forall j :: 0 <= j < |init| ==> init[j] == children[j];
    }
  }

  lemma {:induction false} NamesConcat(a: seq<Child>, b: seq<Child>)
    ensures Names(a + b) == Names(a) + Names(b)
    decreases |b|
  {
    if b == [] {
      assert a + b == a;
    } else {
      var init, last := b[..|b| - 1], b[|b| - 1];
      NamesConcat(a, init);
      assert b == init + [last];
      NamesConcatStep(a, init, last);
    }
  }

  lemma NamesConcatStep(a: seq<Child>, init: seq<Child>, last: Child)
    requires Names(a + init) == Names(a) + Names(init)
    ensures Names(a + (init + [last])) == Names(a) + Names(init + [last])
  {
    var front, b := a + init, init + [last];
    assert a + b == front + [last];
    NamesSnocOf(front, last);
    NamesSnocOf(init, last);
    var na, ni, nl := Names(a), Names(init), NameOf(last);
    assert na + ni + nl == na + (ni + nl);
  }

  /** The name a child contributes: a badge's name, nothing for the overflow badge. */
  function NameOf(x: Child): seq<string> {
    if x.Assigned? then [x.name] else []
  }

  lemma NamesSnocOf(c: seq<Child>, x: Child)
    ensures Names(c + [x]) == Names(c) + NameOf(x)
  {
    NamesSnoc(c, x);
  }

  /** Removing a badge from a duplicate-free container removes exactly its name. */
  lemma RemoveChild(children: seq<Child>, i: nat)
    requires i < |children| && children[i].Assigned? && Distinct(Names(children))
    ensures var rest := children[..i] + children[i + 1..];
      Distinct(Names(rest))
      && forall x :: x in Names(rest) <==> x in Names(children) && x != children[i].name
  {
    NamesAround(children, i);
    DistinctWithout(Names(children[..i]), children[i].name, Names(children[i + 1..]));
  }

  /** The names around badge `i`, with and without it. */
  lemma NamesAround(children: seq<Child>, i: nat)
    requires i < |children| && children[i].Assigned?
    ensures var a, b := Names(children[..i]), Names(children[i + 1..]);
      Names(children) == a + [children[i].name] + b && Names(children[..i] + children[i + 1..]) == a + b
  {
    var front, c, back := children[..i], children[i], children[i + 1..];
    assert children == front + [c] + back;
    NamesSplice(front, c, back);
    NamesConcat(front, back);
  }

  /** A badge between two runs of children contributes its name between theirs. */
  lemma NamesSplice(front: seq<Child>, c: Child, back: seq<Child>)
    requires c.Assigned?
    ensures Names(front + [c] + back) == Names(front) + [c.name] + Names(back)
  {
    var a, b := Names(front), Names(back);
    assert Names(front + [c]) == a + [c.name] by {
      assert (front + [c])[..|front|] == front;
    }
    NamesConcat(front + [c], back);
  }

  /** Dropping `x` from a duplicate-free list removes exactly `x`. */
  lemma DistinctWithout(a: seq<string>, x: string, b: seq<string>)
    requires Distinct(a + [x] + b)
    ensures Distinct(a + b)
    ensures forall y :: y in a + b <==> y in a + [x] + b && y != x
  {
    var all := a + [x] + b;
    assert all[|a|] == x;
    forall j | 0 <= j < |a|
      ensures a[j] != x
    {
      assert all[j] == a[j];
    }
    forall j | 0 <= j < |b|
      ensures b[j] != x
    {
      assert all[|a| + 1 + j] == b[j];
    }
    forall p, q | 0 <= p < q < |a + b|
      ensures (a + b)[p] != (a + b)[q]
    {
      var p' := if p < |a| then p else p + 1;
      var q' := if q < |a| then q else q + 1;
      assert all[p'] == (a + b)[p] && all[q'] == (a + b)[q];
    }
  }

  lemma ViewKeepsNames(ps: seq<Child>)
    requires forall k :: 0 <= k < |ps| ==> ps[k].Assigned?
    ensures Names(BadgesView(ps)) == Names(ps)
  {
    var v := BadgesView(ps);
    ViewNamesPrefix(ps, |ps|);
    if |ps| > 5 {
      NamesSnoc(v[..|ps|], MoreBadge(|ps| - 5));
      assert v[..|ps|] + [MoreBadge(|ps| - 5)] == v;
    } else {
      assert v[..|ps|] == v;
    }
    assert ps[..|ps|] == ps;
  }

  lemma {:induction false} ViewNamesPrefix(ps: seq<Child>, n: nat)
    requires n <= |ps| && forall k :: 0 <= k < |ps| ==> ps[k].Assigned?
    ensures Names(BadgesView(ps)[..n]) == Names(ps[..n])
    decreases n
  {
    if n > 0 {
      var v := BadgesView(ps);
      assert v[..n][..n - 1] == v[..n - 1];
      assert ps[..n][..n - 1] == ps[..n - 1];
      ViewNamesPrefix(ps, n - 1);
    }
  }
}
