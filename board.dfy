/**
 * The kanban board as the scripts see it in the DOM: every column element
 * has an ordered list of children, each a task card or the single shared
 * drag placeholder.  The functions here are the DOM's own list surgery
 * (`remove`, `appendChild`, `insertBefore`), which first detach the node
 * from wherever it is.
 */
module Board {
  import opened Wrappers

  type TaskId = string
  type ColumnId = string

  datatype Node = Card(id: TaskId) | Placeholder

  /** Children of each column element, keyed by the column's id. */
  type Columns = map<ColumnId, seq<Node>>

  predicate NoDup<T(==)>(s: seq<T>) {
    forall i, j :: 0 <= i < j < |s| ==> s[i] != s[j]
  }

  /**
   * The board invariant: every card and the placeholder occur at most once
   * on the whole board.
   */
  predicate Wf(cols: Columns) {
    (forall c :: c in cols ==> NoDup(cols[c]))
    && (forall c, d, n :: c in cols && d in cols && c != d && n in cols[c] ==> n !in cols[d])
  }

  /** `column.contains(n)` for a direct child. */
  predicate InColumn(cols: Columns, c: ColumnId, n: Node) {
    c in cols && n in cols[c]
  }

  predicate OnBoard(cols: Columns, n: Node) {
    exists c :: c in cols && n in cols[c]
  }

  /** `s` without any occurrence of `n`. */
  function RemoveFrom(s: seq<Node>, n: Node): (r: seq<Node>)
    ensures |r| <= |s|
    ensures forall x {:trigger x in r} :: x in r <==> x in s && x != n
  {
    if s == [] then []
    else (if s[0] == n then [] else [s[0]]) + RemoveFrom(s[1..], n)
  }

  lemma {:induction false} RemoveFromNoDup(s: seq<Node>, n: Node)
    requires NoDup(s)
    ensures NoDup(RemoveFrom(s, n))
    decreases |s|
  {
    if s != [] {
      RemoveFromNoDup(s[1..], n);
      var t := RemoveFrom(s[1..], n);
      assert s[0] !in s[1..] by {
        forall k | 0 <= k < |s[1..]| ensures s[1..][k] != s[0] {
          assert s[1..][k] == s[k + 1];
        }
      }
      assert s[0] !in t;
    }
  }

  lemma {:induction false} RemoveFromAbsent(s: seq<Node>, n: Node)
    requires n !in s
    ensures RemoveFrom(s, n) == s
    decreases |s|
  {
    if s != [] {
      RemoveFromAbsent(s[1..], n);
    }
  }

  /** Removing the one occurrence at index `i` closes the gap and keeps the order of the rest. */
  lemma {:induction false} RemoveFromAt(s: seq<Node>, n: Node, i: nat)
    requires NoDup(s) && i < |s| && s[i] == n
    ensures RemoveFrom(s, n) == s[..i] + s[i + 1..]
    decreases |s|
  {
    if i == 0 {
      assert n !in s[1..] by {
        forall k | 0 <= k < |s| - 1 ensures s[1..][k] != n {
          assert s[1..][k] == s[k + 1];
        }
      }
      RemoveFromAbsent(s[1..], n);
    } else {
      RemoveFromAt(s[1..], n, i - 1);
      assert s[0] != n;
      assert s[..i] == [s[0]] + s[1..][..i - 1];
      assert s[i + 1..] == s[1..][i..];
    }
  }

  /** Removal distributes over concatenation. */
  lemma {:induction false} RemoveFromConcat(a: seq<Node>, b: seq<Node>, n: Node)
    ensures RemoveFrom(a + b, n) == RemoveFrom(a, n) + RemoveFrom(b, n)
    decreases |a|
  {
    if a == [] {
      assert a + b == b;
    } else {
      var ab, rest := a + b, a[1..] + b;
      assert ab[0] == a[0] && ab[1..] == rest;
      RemoveFromConcat(a[1..], b, n);
    }
  }

  lemma NoDupSlice(s: seq<Node>, i: nat, j: nat)
    requires NoDup(s) && i <= j <= |s|
    ensures NoDup(s[i..j])
  {
    forall a, b | 0 <= a < b < j - i ensures s[i..j][a] != s[i..j][b] {
      assert s[i..j][a] == s[i + a] && s[i..j][b] == s[i + b];
    }
  }

  /** Index of the first occurrence of `x`. */
  function IndexOf(s: seq<Node>, x: Node): (i: nat)
    requires x in s
    ensures i < |s| && s[i] == x && x !in s[..i]
  {
    if s[0] == x then 0 else 1 + IndexOf(s[1..], x)
  }

  /** In a duplicate-free list, an element does not occur before its own index. */
  lemma NotInPrefix(s: seq<Node>, j: nat, i: nat)
    requires NoDup(s) && i <= j < |s|
    ensures s[j] !in s[..i]
  {
    forall k | 0 <= k < i ensures s[..i][k] != s[j] {
      assert s[..i][k] == s[k];
    }
  }

  /** The first occurrence is the only index at which `x` sits with no earlier copy. */
  lemma IndexOfUnique(s: seq<Node>, x: Node, k: nat)
    requires k < |s| && s[k] == x && x !in s[..k]
    ensures IndexOf(s, x) == k
  {
  }

  /** `n.remove()`: takes `n` out of whatever column holds it. */
  function Detach(cols: Columns, n: Node): (r: Columns)
    ensures r.Keys == cols.Keys
    ensures forall c :: c in r ==> n !in r[c]
    ensures forall c, x :: c in cols && x != n ==> (x in r[c] <==> x in cols[c])
  {
    map c | c in cols :: RemoveFrom(cols[c], n)
  }

  /** `column.appendChild(n)`: `n` becomes the last child of `c` and is nowhere else. */
  function AppendChild(cols: Columns, c: ColumnId, n: Node): (r: Columns)
    requires c in cols
    ensures r.Keys == cols.Keys
  {
    var d := Detach(cols, n);
    d[c := d[c] + [n]]
  }

  /**
   * `column.insertBefore(n, ref)` with `ref` a child of `c`: `n` becomes
   * the child just before `ref`.  Inserting a node before itself leaves the
   * tree as it was.
   */
  function InsertBefore(cols: Columns, c: ColumnId, n: Node, ref: Node): (r: Columns)
    requires c in cols && ref in cols[c]
    ensures r.Keys == cols.Keys
  {
    if ref == n then cols
    else
      var d := Detach(cols, n);
      var s := d[c];
      var i := IndexOf(s, ref);
      d[c := s[..i] + [n] + s[i..]]
  }

  /** Detaching is idempotent, and detaching an absent node changes nothing. */
  lemma DetachAbsent(cols: Columns, n: Node)
    requires forall c :: c in cols ==> n !in cols[c]
    ensures Detach(cols, n) == cols
  {
    forall c | c in cols ensures RemoveFrom(cols[c], n) == cols[c] {
      RemoveFromAbsent(cols[c], n);
    }
  }

  lemma DetachIdempotent(cols: Columns, n: Node)
    ensures Detach(Detach(cols, n), n) == Detach(cols, n)
  {
    DetachAbsent(Detach(cols, n), n);
  }

  lemma DetachWf(cols: Columns, n: Node)
    requires Wf(cols)
    ensures Wf(Detach(cols, n))
  {
    forall c | c in cols ensures NoDup(RemoveFrom(cols[c], n)) {
      RemoveFromNoDup(cols[c], n);
    }
  }

  /** After `appendChild`, `n` is the last child of `c`, in no other column, and the board invariant holds. */
  lemma AppendChildSpec(cols: Columns, c: ColumnId, n: Node)
    requires Wf(cols) && c in cols
    ensures var r := AppendChild(cols, c, n);
      Wf(r) && r[c] == RemoveFrom(cols[c], n) + [n]
      && (forall d :: d in cols && d != c ==> n !in r[d] && r[d] == RemoveFrom(cols[d], n))
  {
    var d := Detach(cols, n);
    DetachWf(cols, n);
    var last := d[c] + [n];
    assert NoDup(last) by {
      forall i, j | 0 <= i < j < |last| ensures last[i] != last[j] {
        if j == |d[c]| {
          assert last[i] in d[c];
        } else {
          assert last[i] == d[c][i] && last[j] == d[c][j];
        }
      }
    }
    WfReplace(d, c, last, n);
  }

  /**
   * Giving column `c` a duplicate-free list whose nodes other than `n`
   * were already in `c` keeps the invariant, when `n` is in no column.
   */
  lemma WfReplace(d: Columns, c: ColumnId, t: seq<Node>, n: Node)
    requires Wf(d) && c in d && NoDup(t)
    requires forall x :: x in t ==> x == n || x in d[c]
    requires forall e :: e in d ==> n !in d[e]
    ensures Wf(d[c := t])
  {
    var r := d[c := t];
    forall e, f, x | e in r && f in r && e != f && x in r[e] ensures x !in r[f] {
      if e == c {
        if x != n {
          assert x in d[c];
        }
      } else {
        assert x in d[e];
      }
    }
  }

  /** Putting a new node at index `i` of a duplicate-free list keeps it duplicate-free. */
  lemma InsertAt(s: seq<Node>, i: nat, n: Node)
    requires NoDup(s) && n !in s && i <= |s|
    ensures var t := s[..i] + [n] + s[i..];
      NoDup(t) && t[i] == n && (forall x :: x in t <==> x == n || x in s)
  {
    var t := s[..i] + [n] + s[i..];
    forall a, b | 0 <= a < b < |t| ensures t[a] != t[b] {
      if a == i {
        assert t[b] in s;
      } else if b == i {
        assert t[a] in s;
      } else {
        var a' := if a < i then a else a - 1;
        var b' := if b < i then b else b - 1;
        assert t[a] == s[a'] && t[b] == s[b'];
      }
    }
    forall x ensures x in t <==> x == n || x in s {
      if x in s {
        var k :| 0 <= k < |s| && s[k] == x;
        if k < i { assert t[k] == x; } else { assert t[k + 1] == x; }
      }
    }
  }

  /** After `insertBefore`, `n` sits immediately before `ref` in `c`, in no other column, and the invariant holds. */
  lemma InsertBeforeSpec(cols: Columns, c: ColumnId, n: Node, ref: Node)
    requires Wf(cols) && c in cols && ref in cols[c] && ref != n
    ensures var r := InsertBefore(cols, c, n, ref);
      Wf(r)
      && (exists i :: 0 <= i < |r[c]| - 1 && r[c][i] == n && r[c][i + 1] == ref)
      && (forall d :: d in cols && d != c ==> n !in r[d])
      && (forall x :: x != n ==> (x in r[c] <==> x in cols[c]))
  {
    var d := Detach(cols, n);
    var s := d[c];
    assert ref in s;
    var i := IndexOf(s, ref);
    var t := s[..i] + [n] + s[i..];
    var r := InsertBefore(cols, c, n, ref);
    assert r == d[c := t];
    assert Wf(r) && t[i] == n && t[i + 1] == ref && (forall x :: x in t <==> x == n || x in s) by {
      DetachWf(cols, n);
      InsertAt(s, i, n);
      WfReplace(d, c, t, n);
    }
  }

  /** The cards of a column, in document order (`.draggable-cards` children). */
  function CardIds(s: seq<Node>): (ids: seq<TaskId>)
    ensures |ids| <= |s|
    ensures forall t :: t in ids <==> Card(t) in s
  {
    if s == [] then []
    else (if s[0].Card? then [s[0].id] else []) + CardIds(s[1..])
  }

  predicate HasCards(s: seq<Node>) {
    exists k :: 0 <= k < |s| && s[k].Card?
  }

  lemma HasCardsIff(s: seq<Node>)
    ensures HasCards(s) <==> CardIds(s) != []
  {
    if HasCards(s) {
      var k :| 0 <= k < |s| && s[k].Card?;
      assert s[k].id in CardIds(s);
    }
    if CardIds(s) != [] {
      assert Card(CardIds(s)[0]) in s;
    }
  }
}
