/**
 * The assigned users of a task card: the trailing "+N" placeholder user,
 * de-duplication by name, and the profile badges a card shows (at most
 * `maxToShow`, then one grey "+k" badge).  Badges are values here; the
 * HTML they are written into is not modelled.
 */
module TaskUsers {
  import opened Wrappers
  import opened Text
  import opened Js
  import opened Board

  /** A user record as stored on a task; `name` is `None` when it is not a string. */
  datatype User = User(name: Option<string>, initials: string, color: string)

  /**
   * What `removeDuplicateUsers` compares: `user.name` when it is a
   * non-empty string, else `JSON.stringify(user)`, which differs for
   * different user records.
   */
  datatype Key = Name(name: string) | Json(user: User)

  /** `user.name || JSON.stringify(user)` */
  function Identifier(u: User): Key {
    if u.name.Some? && u.name.value != "" then Name(u.name.value) else Json(u)
  }

  /** The identifiers of `users`, in order. */
  function Ids(users: seq<User>): (r: seq<Key>)
    ensures |r| == |users| && forall k :: 0 <= k < |users| ==> r[k] == Identifier(users[k])
  {
    if users == [] then [] else [Identifier(users[0])] + Ids(users[1..])
  }

  lemma IdsConcat(a: seq<User>, b: seq<User>)
    ensures Ids(a + b) == Ids(a) + Ids(b)
  {
    assert |Ids(a + b)| == |Ids(a) + Ids(b)|;
    forall k | 0 <= k < |a + b| ensures Ids(a + b)[k] == (Ids(a) + Ids(b))[k] {
      if k >= |a| {
        assert (a + b)[k] == b[k - |a|];
      }
    }
  }

  /** The distinct identifiers of `users`. */
  function DistinctIds(users: seq<User>): set<Key> {
    set x | x in Ids(users)
  }

  /**
   * `removeDuplicateUsers(users)`: `users.filter` with a `seen` set of
   * identifiers, so the first user with each identifier is kept.
   */
  function RemoveDuplicateUsers(users: seq<User>, seen: set<Key>): (r: seq<User>)
    decreases |users|
  {
    if users == [] then []
    else if Identifier(users[0]) in seen then RemoveDuplicateUsers(users[1..], seen)
    else [users[0]] + RemoveDuplicateUsers(users[1..], seen + {Identifier(users[0])})
  }

  /**
   * Reference definition: a user is kept exactly when no earlier user has
   * the same identifier.
   */
  function FirstPerIdentifier(users: seq<User>): seq<User> {
    if users == [] then []
    else
      var init := users[..|users| - 1];
      var last := users[|users| - 1];
      FirstPerIdentifier(init) + (if Identifier(last) in Ids(init) then [] else [last])
  }

  /**
   * The filter with a `seen` set holding `pre`'s identifiers keeps what
   * the reference keeps after `pre`.
   */
  lemma {:induction false} RemoveDuplicatesIsFirstPerIdentifier(pre: seq<User>, users: seq<User>, seen: set<Key>)
    requires forall x :: x in seen <==> x in Ids(pre)
    ensures FirstPerIdentifier(pre + users) == FirstPerIdentifier(pre) + RemoveDuplicateUsers(users, seen)
    decreases |users|
  {
    if users == [] {
      assert pre + users == pre;
    } else {
      var u := users[0];
      var pre' := pre + [u];
      assert pre' + users[1..] == pre + users;
      assert pre'[..|pre'| - 1] == pre;
      IdsConcat(pre, [u]);
      var seen' := if Identifier(u) in seen then seen else seen + {Identifier(u)};
      RemoveDuplicatesIsFirstPerIdentifier(pre', users[1..], seen');
    }
  }

  /** `removeDuplicateUsers` is the reference. */
  lemma RemoveDuplicateUsersIsReference(users: seq<User>)
    ensures RemoveDuplicateUsers(users, {}) == FirstPerIdentifier(users)
  {
    RemoveDuplicatesIsFirstPerIdentifier([], users, {});
    assert [] + users == users;
  }

  /** The reference keeps only users of the input. */
  lemma {:induction false} FirstPerIdentifierSubset(users: seq<User>)
    ensures forall v :: v in FirstPerIdentifier(users) ==> v in users
    decreases |users|
  {
    if users != [] {
      FirstPerIdentifierSubset(users[..|users| - 1]);
    }
  }

  /** The reference has exactly the identifiers of the input. */
  lemma {:induction false} FirstPerIdentifierCovers(users: seq<User>)
    ensures forall x :: x in Ids(FirstPerIdentifier(users)) <==> x in Ids(users)
    decreases |users|
  {
    if users != [] {
      var init := users[..|users| - 1];
      var last := users[|users| - 1];
      FirstPerIdentifierCovers(init);
      assert users == init + [last];
      IdsConcat(init, [last]);
      var r0 := FirstPerIdentifier(init);
      if Identifier(last) !in Ids(init) {
        assert FirstPerIdentifier(users) == r0 + [last];
        IdsConcat(r0, [last]);
      } else {
        assert FirstPerIdentifier(users) == r0;
      }
    }
  }

  /** The reference has each identifier once. */
  lemma {:induction false} FirstPerIdentifierDistinct(users: seq<User>)
    ensures NoDup(Ids(FirstPerIdentifier(users)))
    decreases |users|
  {
    if users != [] {
      var init := users[..|users| - 1];
      var last := users[|users| - 1];
      FirstPerIdentifierDistinct(init);
      if Identifier(last) !in Ids(init) {
        var r0 := FirstPerIdentifier(init);
        FirstPerIdentifierCovers(init);
        IdsConcat(r0, [last]);
        var ids := Ids(r0 + [last]);
        forall i, j | 0 <= i < j < |ids| ensures ids[i] != ids[j] {
          if j == |ids| - 1 {
            assert ids[i] in Ids(r0);
          } else {
            assert ids[i] == Ids(r0)[i] && ids[j] == Ids(r0)[j];
          }
        }
      }
    }
  }

  /** The reference keeps every user whose identifier no earlier user has. */
  lemma {:induction false} FirstPerIdentifierKeepsFirst(users: seq<User>, k: nat)
    requires k < |users| && Identifier(users[k]) !in Ids(users[..k])
    ensures users[k] in FirstPerIdentifier(users)
    decreases |users|
  {
    var init := users[..|users| - 1];
    if k < |users| - 1 {
      assert users[..k] == init[..k];
      FirstPerIdentifierKeepsFirst(init, k);
    } else {
      assert users[..k] == init;
    }
  }

  /** A list whose identifiers are already distinct is kept whole. */
  lemma {:induction false} DistinctFirstPerIdentifier(users: seq<User>)
    requires NoDup(Ids(users))
    ensures FirstPerIdentifier(users) == users
    decreases |users|
  {
    if users != [] {
      var init := users[..|users| - 1];
      var last := users[|users| - 1];
      assert users == init + [last];
      IdsConcat(init, [last]);
      assert Ids(users)[..|init|] == Ids(init);
      DistinctFirstPerIdentifier(init);
    }
  }

  /** `removeDuplicateUsers` applied to its own result changes nothing. */
  lemma RemoveDuplicateUsersIdempotent(users: seq<User>)
    ensures var r := RemoveDuplicateUsers(users, {});
      RemoveDuplicateUsers(r, {}) == r
  {
    var r := RemoveDuplicateUsers(users, {});
    RemoveDuplicateUsersIsReference(users);
    RemoveDuplicateUsersIsReference(r);
    FirstPerIdentifierDistinct(users);
    DistinctFirstPerIdentifier(r);
  }

  /** A duplicate-free sequence has as many distinct elements as entries. */
  lemma {:induction false} NoDupCardinality(s: seq<Key>)
    requires NoDup(s)
    ensures |set x | x in s| == |s|
    decreases |s|
  {
    if s != [] {
      var init := s[..|s| - 1];
      assert s == init + [s[|s| - 1]];
      assert NoDup(init);
      NoDupCardinality(init);
      assert (set x | x in s) == (set x | x in init) + {s[|s| - 1]};
    }
  }

  /** The outcome of `extractPlaceholder`: the users without the "+N" entry, and N. */
  datatype Extracted = Extracted(updatedUsers: seq<User>, placeholderCount: int)

  /** Whether a name is a "+N" entry (after trimming), and N. */
  function PlusCount(name: string): Option<int> {
    if StartsWith(Trim(name), "+") then ParseInt(Trim(name)[1..], None) else None
  }

  function PlaceholderCount(u: User): Option<int> {
    if u.name.Some? then PlusCount(u.name.value) else None
  }

  /**
   * `extractPlaceholder(users)`: a last user whose trimmed name starts
   * with `+` followed by a number is dropped and that number counted;
   * anything else leaves the users as they are with a count of 0.
   */
  function ExtractPlaceholder(users: seq<User>): (r: Extracted)
    ensures r.updatedUsers == users || (users != [] && r.updatedUsers == users[..|users| - 1])
    ensures r.updatedUsers == users ==> r.placeholderCount == 0
  {
    if users == [] then Extracted(users, 0)
    else
      match PlaceholderCount(users[|users| - 1])
      case Some(n) => Extracted(users[..|users| - 1], n)
      case None => Extracted(users, 0)
  }

  /** The "+N" user a card stores for N hidden users. */
  function PlusUser(n: nat): User {
    User(Some("+" + NatString(n, 10)), "", "")
  }

  /** `+` followed by digits is read as those digits. */
  lemma PlusDigits(d: string)
    requires d != [] && AllRadixDigits(d, 10)
    ensures PlusCount("+" + d) == ParseInt(d, None)
  {
    var s := "+" + d;
    assert !IsSpace(s[0]);
    TrimStartNoSpace(s);
    assert IsRadixDigit(d[|d| - 1], 10);
    assert s[|s| - 1] == d[|d| - 1];
    TrimEndNoSpace(s);
    assert s[..1] == "+";
    assert s[1..] == d;
  }

  lemma PlusUserCount(n: nat)
    ensures PlaceholderCount(PlusUser(n)) == Some(n)
  {
    PlusDigits(NatString(n, 10));
    ParseIntOfNatString(n, None);
  }

  /** A stored "+N" entry is recognised and removed, and N read back. */
  lemma ExtractPlusUser(users: seq<User>, n: nat)
    ensures ExtractPlaceholder(users + [PlusUser(n)]) == Extracted(users, n)
  {
    PlusUserCount(n);
    assert (users + [PlusUser(n)])[..|users|] == users;
  }

  /** A last user whose name does not start with `+` (after trimming) is never removed. */
  lemma ExtractKeepsNamedUser(users: seq<User>)
    requires users != [] && users[|users| - 1].name.Some?
    requires !StartsWith(Trim(users[|users| - 1].name.value), "+")
    ensures ExtractPlaceholder(users) == Extracted(users, 0)
  {
  }

  datatype RealUsers = RealUsers(realUsers: seq<User>, totalCount: int)

  /**
   * `getRealUserArrayAndCount(users)`; `users` is `None` when it is not
   * an array.
   */
  function GetRealUserArrayAndCount(users: Option<seq<User>>): (r: RealUsers)
    ensures users.None? ==> r == RealUsers([], 0)
    ensures users.Some? ==>
      r.realUsers == ExtractPlaceholder(users.value).updatedUsers
      && r.totalCount == |r.realUsers| + ExtractPlaceholder(users.value).placeholderCount
  {
    if users.None? then RealUsers([], 0)
    else
      var e := ExtractPlaceholder(users.value);
      RealUsers(e.updatedUsers, |e.updatedUsers| + e.placeholderCount)
  }

  /** The total count of a stored list is its real users plus the hidden ones of its "+N" entry. */
  lemma TotalCountWithPlusUser(users: seq<User>, n: nat)
    ensures GetRealUserArrayAndCount(Some(users + [PlusUser(n)])) == RealUsers(users, |users| + n)
  {
    ExtractPlusUser(users, n);
  }

  /** A profile badge: a user's colour class and initials, or the grey "+k" overflow badge. */
  datatype Badge = UserBadge(colorClass: string, initials: string) | MoreBadge(hidden: int)

  /** `u.initials || '?'` and `u.color || 'default'` */
  function BadgeOf(u: User): (b: Badge)
    ensures b.UserBadge? && b.colorClass != "" && b.initials != ""
  {
    UserBadge(if u.color == "" then "default" else u.color, if u.initials == "" then "?" else u.initials)
  }

  function Min(a: int, b: int): int {
    if a <= b then a else b
  }

  /** The badges of the first `maxToShow` users. */
  function VisibleBadges(users: seq<User>, maxToShow: nat): (r: seq<Badge>)
    ensures |r| == Min(|users|, maxToShow)
    ensures forall k :: 0 <= k < |r| ==> r[k] == BadgeOf(users[k])
  {
    if users == [] || maxToShow == 0 then []
    else [BadgeOf(users[0])] + VisibleBadges(users[1..], maxToShow - 1)
  }

  /** `calculateOverflow(totalCount, maxToShow)` */
  function CalculateOverflow(totalCount: int, maxToShow: nat): (r: seq<Badge>)
    ensures |r| <= 1
    ensures r != [] <==> totalCount > maxToShow
    ensures r != [] ==> r[0] == MoreBadge(totalCount - maxToShow) && r[0].hidden > 0
  {
    if totalCount > maxToShow then [MoreBadge(totalCount - maxToShow)] else []
  }

  /** `buildBadgesHTML(uniqueUsers, maxToShow)`: one badge per shown user, accumulated in a loop. */
  method BuildBadges(uniqueUsers: seq<User>, maxToShow: nat) returns (badges: seq<Badge>)
    ensures badges == VisibleBadges(uniqueUsers, maxToShow)
  {
    var shown := uniqueUsers[..Min(|uniqueUsers|, maxToShow)];
    badges := [];
    for i := 0 to |shown|
      invariant |badges| == i
      invariant forall k :: 0 <= k < i ==> badges[k] == BadgeOf(uniqueUsers[k])
    {
      badges := badges + [BadgeOf(shown[i])];
    }
  }

  /**
   * `renderUserBadges(users, maxToShow)` of `taskDataTemplate.render.js`:
   * nothing for a missing, non-array or empty list or when no unique user
   * remains; otherwise the shown badges then the overflow badge.
   */
  method RenderUserBadges(users: Option<seq<User>>, maxToShow: nat) returns (badges: seq<Badge>)
    ensures users.None? || users == Some([]) ==> badges == []
    ensures users.Some? ==>
      var unique := RemoveDuplicateUsers(GetRealUserArrayAndCount(users).realUsers, {});
      badges == VisibleBadges(unique, maxToShow) + CalculateOverflow(|unique|, maxToShow)
  {
    if users.None? || users.value == [] {
      return [];
    }
    var unique := RemoveDuplicateUsers(GetRealUserArrayAndCount(users).realUsers, {});
    if unique == [] {
      return [];
    }
    badges := BuildBadges(unique, maxToShow);
    badges := badges + CalculateOverflow(|unique|, maxToShow);
  }

  /**
   * `renderUserBadges(users, maxToShow)` of `taskDataTemplate.js`: the same
   * badges; its inline loop over the shown users does what the loop of
   * `buildBadgesHTML` does, and the "+k" badge is appended in place.
   */
  method RenderUserBadgesInline(users: Option<seq<User>>, maxToShow: nat) returns (badges: seq<Badge>)
    ensures var unique := RemoveDuplicateUsers(GetRealUserArrayAndCount(users).realUsers, {});
      badges == VisibleBadges(unique, maxToShow) + CalculateOverflow(|unique|, maxToShow)
  {
    var counted := GetRealUserArrayAndCount(users);
    var unique := RemoveDuplicateUsers(counted.realUsers, {});
    badges := BuildBadges(unique, maxToShow);
    if |unique| > maxToShow {
      badges := badges + [MoreBadge(|unique| - maxToShow)];
    }
  }

  /**
   * The badges of distinct users: at most `maxToShow` user badges, in
   * order, then one "+k" badge exactly when users are left over, k being
   * how many.
   */
  lemma BadgeLayout(unique: seq<User>, maxToShow: nat)
    ensures var b := VisibleBadges(unique, maxToShow) + CalculateOverflow(|unique|, maxToShow);
      (forall k :: 0 <= k < |b| && b[k].UserBadge? ==> k < maxToShow && b[k] == BadgeOf(unique[k]))
      && (|unique| > maxToShow ==> |b| == maxToShow + 1 && b[maxToShow] == MoreBadge(|unique| - maxToShow))
      && (|unique| <= maxToShow ==> |b| == |unique|)
  {
  }

  /**
   * A card shows one badge per distinct user as long as they fit, and
   * otherwise `maxToShow` of them and a "+k" badge counting exactly the
   * distinct users not shown.
   */
  lemma BadgesAccountForEveryUser(users: seq<User>, maxToShow: nat)
    ensures var unique := RemoveDuplicateUsers(users, {});
      var b := VisibleBadges(unique, maxToShow) + CalculateOverflow(|unique|, maxToShow);
      (|DistinctIds(users)| > maxToShow ==> |b| == maxToShow + 1
                                            && b[maxToShow] == MoreBadge(|DistinctIds(users)| - maxToShow))
      && (|DistinctIds(users)| <= maxToShow ==> |b| == |DistinctIds(users)|)
  {
    var unique := RemoveDuplicateUsers(users, {});
    RemoveDuplicateUsersIsReference(users);
    FirstPerIdentifierDistinct(users);
    FirstPerIdentifierCovers(users);
    NoDupCardinality(Ids(unique));
    assert DistinctIds(users) == set x | x in Ids(unique);
    BadgeLayout(unique, maxToShow);
  }
}
