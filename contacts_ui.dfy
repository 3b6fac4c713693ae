/**
 * The contacts list of `contacts.ui.js`: the contacts sorted by name and
 * gathered into groups by the upper-cased first letter of their name.
 */
module ContactsUi {
  import opened Wrappers
  import opened Text

  datatype Contact = Contact(id: string, name: Option<string>, email: string)

  /** `(contact.name || '').charAt(0).toUpperCase()`: the group a contact belongs to. */
  function FirstLetter(c: Contact): (k: string)
    ensures |k| <= 1
    ensures k == [] <==> c.name.None? || c.name.value == []
    ensures k != [] ==> k[0] == UpperChar(c.name.value[0])
  {
    if c.name.None? || c.name.value == [] then [] else [UpperChar(c.name.value[0])]
  }

  /** The contacts of group `k`, in list order. */
  function GroupOf(contacts: seq<Contact>, k: string): (r: seq<Contact>)
    ensures |r| <= |contacts|
  {
    if contacts == [] then []
    else
      var x := contacts[|contacts| - 1];
      GroupOf(contacts[..|contacts| - 1], k) + (if FirstLetter(x) == k then [x] else [])
  }

  /** Grouping distributes over concatenation: within a group, contacts keep their list order. */
  lemma {:induction false} GroupOfConcat(a: seq<Contact>, b: seq<Contact>, k: string)
    ensures GroupOf(a + b, k) == GroupOf(a, k) + GroupOf(b, k)
    decreases |b|
  {
    if b == [] {
      assert a + b == a;
    } else {
      var x := b[|b| - 1];
      assert (a + b)[..|a + b| - 1] == a + b[..|b| - 1];
      assert (a + b)[|a + b| - 1] == x;
      GroupOfConcat(a, b[..|b| - 1], k);
    }
  }

  /** A group holds every contact of its letter as often as the list does, and no other. */
  lemma {:induction false} GroupOfCounts(contacts: seq<Contact>, k: string, x: Contact)
    ensures multiset(GroupOf(contacts, k))[x] == if FirstLetter(x) == k then multiset(contacts)[x] else 0
    decreases |contacts|
  {
    if contacts != [] {
      var init := contacts[..|contacts| - 1];
      GroupOfCounts(init, k, x);
      assert contacts == init + [contacts[|contacts| - 1]];
    }
  }

  /** Sorting first does not change which contacts land in which group. */
  lemma GroupOfPermutation(a: seq<Contact>, b: seq<Contact>, k: string)
    requires multiset(a) == multiset(b)
    ensures multiset(GroupOf(a, k)) == multiset(GroupOf(b, k))
  {
    forall x ensures multiset(GroupOf(a, k))[x] == multiset(GroupOf(b, k))[x] {
      GroupOfCounts(a, k, x);
      GroupOfCounts(b, k, x);
    }
  }

  /** Some contact of `contacts` has first letter `k`. */
  predicate HasLetter(contacts: seq<Contact>, k: string) {
    exists i :: 0 <= i < |contacts| && FirstLetter(contacts[i]) == k
  }

  lemma GroupOfSnoc(contacts: seq<Contact>, x: Contact, k: string)
    ensures GroupOf(contacts + [x], k) == GroupOf(contacts, k) + (if FirstLetter(x) == k then [x] else [])
  {
    assert (contacts + [x])[..|contacts|] == contacts;
  }

  /** The first letters that occur in `contacts`. */
  function Letters(contacts: seq<Contact>): (r: set<string>)
    ensures forall k :: k in r <==> HasLetter(contacts, k)
  {
    set m | 0 <= m < |contacts| :: FirstLetter(contacts[m])
  }

  /** The groups of `contacts`: one per occurring letter. */
  function Groups(contacts: seq<Contact>): map<string, seq<Contact>> {
    map k | k in Letters(contacts) :: GroupOf(contacts, k)
  }

  /** A letter no contact has has an empty group. */
  lemma {:induction false} GroupOfMissing(contacts: seq<Contact>, k: string)
    requires !HasLetter(contacts, k)
    ensures GroupOf(contacts, k) == []
    decreases |contacts|
  {
    if contacts != [] {
      var init := contacts[..|contacts| - 1];
      GroupOfMissing(init, k);
      assert FirstLetter(contacts[|contacts| - 1]) != k;
    }
  }

  /** Appending a contact appends it to its letter's group, creating the group if needed. */
  lemma GroupsSnoc(contacts: seq<Contact>, x: Contact)
    ensures var k := FirstLetter(x); var g := Groups(contacts);
      Groups(contacts + [x]) == g[k := (if k in g then g[k] else []) + [x]]
  {
    var k := FirstLetter(x);
    var s := contacts + [x];
    var g := Groups(contacts);
    var lhs := Groups(s);
    var rhs := g[k := (if k in g then g[k] else []) + [x]];
    assert s[|contacts|] == x;
    forall m | 0 <= m < |contacts| ensures s[m] == contacts[m] { }
    assert Letters(s) == Letters(contacts) + {k};
    assert lhs.Keys == rhs.Keys;
    forall j | j in lhs ensures lhs[j] == rhs[j] {
      GroupOfSnoc(contacts, x, j);
      if j == k && k !in g {
        GroupOfMissing(contacts, k);
      }
    }
    assert lhs == rhs;
  }

  /** There is a group for each letter that occurs, holding that letter's contacts in list order. */
  lemma GroupsSpec(contacts: seq<Contact>)
    ensures forall k :: k in Groups(contacts) <==> HasLetter(contacts, k)
    ensures forall k :: k in Groups(contacts) ==> Groups(contacts)[k] == GroupOf(contacts, k)
  {
  }

  /**
   * `groupContactsByLetter(sortedContacts)`: one group per first letter
   * that occurs, each holding its contacts in list order; `letters` is the
   * order in which the groups were created.
   */
  method GroupContactsByLetter(sorted: seq<Contact>) returns (groups: map<string, seq<Contact>>, letters: seq<string>)
    ensures groups == Groups(sorted)
    ensures forall k :: k in letters <==> k in groups
    ensures forall i, j :: 0 <= i < j < |letters| ==> letters[i] != letters[j]
  {
    groups := map[];
    letters := [];
    for i := 0 to |sorted|
      invariant groups == Groups(sorted[..i])
      invariant forall k :: k in letters <==> k in groups
      invariant forall p, q :: 0 <= p < q < |letters| ==> letters[p] != letters[q]
    {
      var contact := sorted[i];
      var letter := FirstLetter(contact);
      assert sorted[..i + 1] == sorted[..i] + [contact];
      GroupsSnoc(sorted[..i], contact);
      var current := if letter in groups then groups[letter] else [];
      if letter !in groups {
        letters := letters + [letter];
      }
      groups := groups[letter := current + [contact]];
    }
    assert sorted[..|sorted|] == sorted;
  }

  /**
   * `displayContacts()`: a sorted copy of `contacts` is grouped; `sorted` is
   * what `slice().sort(...)` returns.  Every group holds exactly the
   * contacts of its letter, whatever order the comparison puts them in, and
   * the list itself is left as it was.
   */
  method DisplayContacts(contacts: seq<Contact>, sorted: seq<Contact>) returns (groups: map<string, seq<Contact>>)
    requires multiset(sorted) == multiset(contacts)
    ensures forall k :: k in groups <==> HasLetter(contacts, k)
    ensures forall k :: k in groups ==> multiset(groups[k]) == multiset(GroupOf(contacts, k))
  {
    var letters;
    groups, letters := GroupContactsByLetter(sorted);
    GroupsSpec(sorted);
    forall k | k in groups ensures multiset(groups[k]) == multiset(GroupOf(contacts, k)) {
      GroupOfPermutation(sorted, contacts, k);
    }
    forall k ensures HasLetter(sorted, k) <==> HasLetter(contacts, k) {
      if HasLetter(sorted, k) {
        var i :| 0 <= i < |sorted| && FirstLetter(sorted[i]) == k;
        assert sorted[i] in multiset(contacts);
        var j :| 0 <= j < |contacts| && contacts[j] == sorted[i];
      }
      if HasLetter(contacts, k) {
        var i :| 0 <= i < |contacts| && FirstLetter(contacts[i]) == k;
        assert contacts[i] in multiset(sorted);
        var j :| 0 <= j < |sorted| && sorted[j] == contacts[i];
      }
    }
  }
}
