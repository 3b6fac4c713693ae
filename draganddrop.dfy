/**
 * The placeholder surgery of the board's drag-and-drop engine
 * (`draganddrop.js`, `draganddrop.touch.js`): where a drop puts the card,
 * and where hovering puts the shared placeholder.  These are the pure
 * effects on the board; the handlers that perform them live in the page
 * and touch-gesture classes.
 */
module DragAndDrop {
  import opened Wrappers
  import opened Board

  /** The board with every placeholder taken out: the cards' own order. */
  predicate SameCardOrder(a: Columns, b: Columns) {
    a.Keys == b.Keys && forall d :: d in a ==> RemoveFrom(a[d], Placeholder) == RemoveFrom(b[d], Placeholder)
  }

  predicate PlaceholderOnlyIn(cols: Columns, c: ColumnId) {
    c in cols && Placeholder in cols[c] && forall d :: d in cols && d != c ==> Placeholder !in cols[d]
  }

  predicate NoPlaceholder(cols: Columns) {
    forall d :: d in cols ==> Placeholder !in cols[d]
  }

  /** `dragPlaceholder.nextSibling` when `s` holds the placeholder. */
  function NextSibling(s: seq<Node>): Option<Node> {
    if Placeholder in s && IndexOf(s, Placeholder) + 1 < |s| then Some(s[IndexOf(s, Placeholder) + 1]) else None
  }

  /**
   * `insertTaskAtPlaceholderOrEnd(container, task)`: remember the node after
   * the placeholder when the container holds it, remove the placeholder,
   * then insert the card before the remembered node or append it.
   */
  function PlaceAtPlaceholderOrEnd(cols: Columns, c: ColumnId, t: TaskId): Columns
    requires Wf(cols) && c in cols
  {
    var s := cols[c];
    var next := NextSibling(s);
    var d := Detach(cols, Placeholder);
    if next.Some? then
      assert next.value in d[c] by {
        RemoveFromAt(s, Placeholder, IndexOf(s, Placeholder));
      }
      InsertBefore(d, c, Card(t), next.value)
    else AppendChild(d, c, Card(t))
  }

  /**
   * The intended outcome of a drop on column `s`: the card takes the
   * placeholder's place, or goes last when the column has no placeholder.
   */
  function CardReplacesPlaceholder(s: seq<Node>, t: TaskId): seq<Node> {
    if Placeholder in s then
      var i := IndexOf(s, Placeholder);
      RemoveFrom(s[..i], Card(t)) + [Card(t)] + RemoveFrom(s[i + 1..], Card(t))
    else RemoveFrom(s, Card(t)) + [Card(t)]
  }

  /** Dropping a card onto the node that follows the placeholder: the card is already in place. */
  lemma PlacedBeforeItself(s: seq<Node>, t: TaskId, i: nat)
    requires NoDup(s) && Placeholder in s && i == IndexOf(s, Placeholder) && i + 1 < |s| && s[i + 1] == Card(t)
    ensures RemoveFrom(s, Placeholder) == CardReplacesPlaceholder(s, t)
  {
    var ct, head, tail, rest := Card(t), s[..i], s[i + 1..], s[i + 2..];
    RemoveFromAt(s, Placeholder, i);
    CardAroundPlaceholder(s, t, i);
    assert tail == [ct] + rest;
    assert head + tail == head + [ct] + rest;
  }

  /** With the card right after the placeholder, removing the card leaves both sides as they are. */
  lemma CardAroundPlaceholder(s: seq<Node>, t: TaskId, i: nat)
    requires NoDup(s) && i + 1 < |s| && s[i + 1] == Card(t)
    ensures RemoveFrom(s[..i], Card(t)) == s[..i] && RemoveFrom(s[i + 1..], Card(t)) == s[i + 2..]
  {
    var ct, tail := Card(t), s[i + 1..];
    NotInPrefix(s, i + 1, i);
    RemoveFromAbsent(s[..i], ct);
    NoDupSlice(s, i + 1, |s|);
    RemoveFromAt(tail, ct, 0);
    assert tail[..0] + tail[1..] == s[i + 2..];
  }

  /** Dropping before another node: detach the card, then insert it before that node. */
  lemma PlacedBeforeOther(s: seq<Node>, t: TaskId, i: nat)
    requires NoDup(s) && Placeholder in s && i == IndexOf(s, Placeholder) && i + 1 < |s| && s[i + 1] != Card(t)
    ensures var u := RemoveFrom(RemoveFrom(s, Placeholder), Card(t));
      s[i + 1] in u && u[..IndexOf(u, s[i + 1])] + [Card(t)] + u[IndexOf(u, s[i + 1])..] == CardReplacesPlaceholder(s, t)
  {
    var ct := Card(t);
    var ref := s[i + 1];
    RemoveFromAt(s, Placeholder, i);
    var a := RemoveFrom(s[..i], ct);
    var b := RemoveFrom(s[i + 1..], ct);
    RemoveFromConcat(s[..i], s[i + 1..], ct);
    var u := a + b;
    assert s[i + 1..][0] == ref && s[i + 1..][1..] == s[i + 2..];
    assert b == [ref] + RemoveFrom(s[i + 2..], ct);
    assert ref !in s[..i];
    assert ref !in a;
    assert u[|a|] == ref && u[..|a|] == a;
    IndexOfUnique(u, ref, |a|);
    assert u[|a|..] == b;
  }

  /** Appending when nothing follows the placeholder, or there is none. */
  lemma PlacedAtEnd(s: seq<Node>, t: TaskId)
    requires NoDup(s) && NextSibling(s).None?
    ensures RemoveFrom(RemoveFrom(s, Placeholder), Card(t)) + [Card(t)] == CardReplacesPlaceholder(s, t)
  {
    if Placeholder in s {
      var i := IndexOf(s, Placeholder);
      RemoveFromAt(s, Placeholder, i);
      assert s[i + 1..] == [];
      assert s[..i] + s[i + 1..] == s[..i];
    } else {
      RemoveFromAbsent(s, Placeholder);
    }
  }

  lemma DetachAt(cols: Columns, n: Node, e: ColumnId)
    requires e in cols
    ensures Detach(cols, n)[e] == RemoveFrom(cols[e], n)
  {
  }

  lemma NotInSplice(u: seq<Node>, j: nat, y: Node, x: Node)
    requires j <= |u| && x !in u && x != y
    ensures x !in u[..j] + [y] + u[j..]
  {
    assert u[..j] + u[j..] == u;
  }

  lemma DropBeforeItself(cols: Columns, c: ColumnId, t: TaskId)
    requires Wf(cols) && c in cols && NextSibling(cols[c]) == Some(Card(t))
    ensures var r := PlaceAtPlaceholderOrEnd(cols, c, t);
      Wf(r) && r.Keys == cols.Keys
      && r[c] == CardReplacesPlaceholder(cols[c], t)
      && (forall e :: e in cols && e != c ==> r[e] == RemoveFrom(RemoveFrom(cols[e], Placeholder), Card(t)))
      && NoPlaceholder(r)
  {
    var s := cols[c];
    var d := Detach(cols, Placeholder);
    assert PlaceAtPlaceholderOrEnd(cols, c, t) == d;
    DetachWf(cols, Placeholder);
    PlacedBeforeItself(s, t, IndexOf(s, Placeholder));
    forall e | e in cols && e != c
      ensures d[e] == RemoveFrom(RemoveFrom(cols[e], Placeholder), Card(t))
    {
      assert Card(t) in s;
      assert Card(t) !in cols[e];
      RemoveFromAbsent(RemoveFrom(cols[e], Placeholder), Card(t));
    }
  }

  lemma DropBeforeOther(cols: Columns, c: ColumnId, t: TaskId)
    requires Wf(cols) && c in cols && NextSibling(cols[c]).Some? && NextSibling(cols[c]) != Some(Card(t))
    ensures var r := PlaceAtPlaceholderOrEnd(cols, c, t);
      Wf(r) && r.Keys == cols.Keys
      && r[c] == CardReplacesPlaceholder(cols[c], t)
      && (forall e :: e in cols && e != c ==> r[e] == RemoveFrom(RemoveFrom(cols[e], Placeholder), Card(t)))
      && NoPlaceholder(r)
  {
    var s := cols[c];
    var i := IndexOf(s, Placeholder);
    var ref := s[i + 1];
    var d := Detach(cols, Placeholder);
    DetachWf(cols, Placeholder);
    assert ref in d[c] by {
      RemoveFromAt(s, Placeholder, i);
    }
    var ct := Card(t);
    var r := InsertBefore(d, c, ct, ref);
    assert PlaceAtPlaceholderOrEnd(cols, c, t) == r;
    assert Wf(r) by {
      InsertBeforeSpec(d, c, ct, ref);
    }
    var e := Detach(d, ct);
    var u := e[c];
    assert u == RemoveFrom(RemoveFrom(s, Placeholder), ct) by {
      DetachAt(d, ct, c);
      DetachAt(cols, Placeholder, c);
    }
    var j := IndexOf(u, ref);
    assert r == e[c := u[..j] + [ct] + u[j..]];
    assert r[c] == CardReplacesPlaceholder(s, t) by {
      PlacedBeforeOther(s, t, i);
    }
    forall x | x in cols && x != c
      ensures r[x] == RemoveFrom(RemoveFrom(cols[x], Placeholder), ct)
      ensures Placeholder !in r[x]
    {
      DetachAt(d, ct, x);
      DetachAt(cols, Placeholder, x);
    }
    assert Placeholder !in r[c] by {
      assert Placeholder !in u;
      NotInSplice(u, j, ct, Placeholder);
    }
  }

  lemma DropAtEnd(cols: Columns, c: ColumnId, t: TaskId)
    requires Wf(cols) && c in cols && NextSibling(cols[c]).None?
    ensures var r := PlaceAtPlaceholderOrEnd(cols, c, t);
      Wf(r) && r.Keys == cols.Keys
      && r[c] == CardReplacesPlaceholder(cols[c], t)
      && (forall e :: e in cols && e != c ==> r[e] == RemoveFrom(RemoveFrom(cols[e], Placeholder), Card(t)))
      && NoPlaceholder(r)
  {
    var d := Detach(cols, Placeholder);
    DetachWf(cols, Placeholder);
    assert PlaceAtPlaceholderOrEnd(cols, c, t) == AppendChild(d, c, Card(t));
    AppendChildSpec(d, c, Card(t));
    PlacedAtEnd(cols[c], t);
  }

  /**
   * After a drop into `c` the card sits where the placeholder was (or
   * last), the placeholder is gone from the whole board, every other column
   * only loses the card and the placeholder, and the board invariant holds.
   */
  lemma PlaceAtPlaceholderOrEndSpec(cols: Columns, c: ColumnId, t: TaskId)
    requires Wf(cols) && c in cols
    ensures var r := PlaceAtPlaceholderOrEnd(cols, c, t);
      Wf(r) && r.Keys == cols.Keys
      && r[c] == CardReplacesPlaceholder(cols[c], t)
      && (forall e :: e in cols && e != c ==> r[e] == RemoveFrom(RemoveFrom(cols[e], Placeholder), Card(t)))
      && NoPlaceholder(r)
  {
    var next := NextSibling(cols[c]);
    if next == Some(Card(t)) {
      DropBeforeItself(cols, c, t);
    } else if next.Some? {
      DropBeforeOther(cols, c, t);
    } else {
      DropAtEnd(cols, c, t);
    }
  }

  /**
   * The drop handler run a second time for the same drop event, as happens
   * when a column carries two drop listeners: the placeholder is gone, so
   * the card is appended, and whenever the placeholder had a node after it
   * the card no longer sits where the placeholder was.
   */
  lemma DoubleDropAppends(cols: Columns, c: ColumnId, t: TaskId)
    requires Wf(cols) && c in cols
    ensures var once := PlaceAtPlaceholderOrEnd(cols, c, t);
      Wf(once) && c in once
      && var twice := PlaceAtPlaceholderOrEnd(once, c, t);
      twice[c] == RemoveFrom(once[c], Card(t)) + [Card(t)]
      && (NextSibling(cols[c]).Some? && NextSibling(cols[c]) != Some(Card(t)) ==> twice[c] != once[c])
  {
    var s := cols[c];
    var once := PlaceAtPlaceholderOrEnd(cols, c, t);
    PlaceAtPlaceholderOrEndSpec(cols, c, t);
    assert NextSibling(once[c]).None?;
    assert PlaceAtPlaceholderOrEnd(once, c, t)[c] == RemoveFrom(once[c], Card(t)) + [Card(t)] by {
      DropAtEnd(once, c, t);
      RemoveFromAbsent(once[c], Placeholder);
    }
    if NextSibling(s).Some? && NextSibling(s) != Some(Card(t)) {
      PlacedLastIsNotCard(s, t);
    }
  }

  lemma PlacedLastIsNotCard(s: seq<Node>, t: TaskId)
    requires NoDup(s) && NextSibling(s).Some? && NextSibling(s) != Some(Card(t))
    ensures var p := CardReplacesPlaceholder(s, t); p != [] && p[|p| - 1] != Card(t)
  {
    var i := IndexOf(s, Placeholder);
    var a := RemoveFrom(s[..i], Card(t));
    var rest := s[i + 1..];
    var b := RemoveFrom(rest, Card(t));
    assert b != [] && b[|b| - 1] != Card(t) by {
      assert rest[0] == s[i + 1] != Card(t);
      assert b == [rest[0]] + RemoveFrom(rest[1..], Card(t));
      assert b[|b| - 1] in b;
    }
    var p, front := CardReplacesPlaceholder(s, t), a + [Card(t)];
    assert p == front + b by {
      assert Placeholder in s;
    }
    assert p[|p| - 1] == b[|b| - 1] by {
      assert |p| == |front| + |b|;
      assert p[|front| + |b| - 1] == b[|b| - 1];
    }
  }

  /** The drop leaves the dropped card in exactly one column, the target. */
  lemma DropLeavesCardOnce(cols: Columns, c: ColumnId, t: TaskId)
    requires Wf(cols) && c in cols
    ensures var r := PlaceAtPlaceholderOrEnd(cols, c, t);
      Card(t) in r[c] && forall d :: d in r && d != c ==> Card(t) !in r[d]
  {
    PlaceAtPlaceholderOrEndSpec(cols, c, t);
  }

  /**
   * `handleColumnDragOver` once the resolver has chosen `after`: with no
   * card below the pointer the placeholder is appended unless the column
   * already holds it; before a child card it is inserted there; before
   * anything else it is appended.
   */
  function DragOverColumn(cols: Columns, c: ColumnId, after: Option<TaskId>): Columns
    requires c in cols
  {
    if after.None? then
      if Placeholder in cols[c] then cols else AppendChild(cols, c, Placeholder)
    else if Card(after.value) in cols[c] then InsertBefore(cols, c, Placeholder, Card(after.value))
    else AppendChild(cols, c, Placeholder)
  }

  lemma RemovePlaceholderTwice(s: seq<Node>)
    ensures RemoveFrom(RemoveFrom(s, Placeholder), Placeholder) == RemoveFrom(s, Placeholder)
  {
    RemoveFromAbsent(RemoveFrom(s, Placeholder), Placeholder);
  }

  /** Appending the placeholder moves no card and leaves it last in `c` only. */
  lemma AppendPlaceholderSpec(cols: Columns, c: ColumnId)
    requires Wf(cols) && c in cols
    ensures var r := AppendChild(cols, c, Placeholder);
      Wf(r) && SameCardOrder(r, cols) && PlaceholderOnlyIn(r, c)
      && r[c] == RemoveFrom(cols[c], Placeholder) + [Placeholder]
  {
    var r := AppendChild(cols, c, Placeholder);
    AppendChildSpec(cols, c, Placeholder);
    forall e | e in r ensures RemoveFrom(r[e], Placeholder) == RemoveFrom(cols[e], Placeholder) {
      RemovePlaceholderTwice(cols[e]);
      if e == c {
        RemoveFromConcat(RemoveFrom(cols[c], Placeholder), [Placeholder], Placeholder);
      }
    }
  }

  /** Inserting the placeholder before a card moves no card and puts it right before that card. */
  lemma SplicedPlaceholderRemoved(s: seq<Node>, i: nat)
    requires Placeholder !in s && i <= |s|
    ensures RemoveFrom(s[..i] + [Placeholder] + s[i..], Placeholder) == s
  {
    var head, mid, tail := s[..i], [Placeholder], s[i..];
    assert Placeholder !in head && Placeholder !in tail by {
      assert s == head + tail;
    }
    calc {
      RemoveFrom(head + mid + tail, Placeholder);
      { RemoveFromConcat(head + mid, tail, Placeholder); }
      RemoveFrom(head + mid, Placeholder) + RemoveFrom(tail, Placeholder);
      { RemoveFromConcat(head, mid, Placeholder); RemoveFromAbsent(tail, Placeholder); }
      RemoveFrom(head, Placeholder) + RemoveFrom(mid, Placeholder) + tail;
      { RemoveFromAbsent(head, Placeholder); assert RemoveFrom(mid, Placeholder) == []; }
      head + [] + tail;
      { assert head + [] == head; }
      s;
    }
  }

  lemma InsertPlaceholderSpec(cols: Columns, c: ColumnId, ref: TaskId)
    requires Wf(cols) && c in cols && Card(ref) in cols[c]
    ensures var r := InsertBefore(cols, c, Placeholder, Card(ref));
      Wf(r) && SameCardOrder(r, cols) && PlaceholderOnlyIn(r, c)
      && exists i :: 0 <= i < |r[c]| - 1 && r[c][i] == Placeholder && r[c][i + 1] == Card(ref)
  {
    var r := InsertBefore(cols, c, Placeholder, Card(ref));
    assert Wf(r) && (exists i :: 0 <= i < |r[c]| - 1 && r[c][i] == Placeholder && r[c][i + 1] == Card(ref))
      && (forall d :: d in cols && d != c ==> Placeholder !in r[d]) by {
      InsertBeforeSpec(cols, c, Placeholder, Card(ref));
    }
    var d := Detach(cols, Placeholder);
    var s := d[c];
    var i := IndexOf(s, Card(ref));
    assert r == d[c := s[..i] + [Placeholder] + s[i..]];
    assert RemoveFrom(r[c], Placeholder) == RemoveFrom(cols[c], Placeholder) by {
      DetachAt(cols, Placeholder, c);
      SplicedPlaceholderRemoved(s, i);
    }
    forall e | e in r && e != c ensures RemoveFrom(r[e], Placeholder) == RemoveFrom(cols[e], Placeholder) {
      DetachAt(cols, Placeholder, e);
      RemovePlaceholderTwice(cols[e]);
    }
  }

  /**
   * After `handleColumnDragOver` the placeholder is in the hovered column
   * and nowhere else, and no card has moved; it sits right before the
   * chosen card when that card is a child of the column, stays put when no
   * card was chosen and the column already holds it, and is last otherwise.
   */
  lemma DragOverColumnSpec(cols: Columns, c: ColumnId, after: Option<TaskId>)
    requires Wf(cols) && c in cols
    ensures var r := DragOverColumn(cols, c, after);
      Wf(r) && SameCardOrder(r, cols) && PlaceholderOnlyIn(r, c)
      && (after.Some? && Card(after.value) in cols[c] ==>
            exists i :: 0 <= i < |r[c]| - 1 && r[c][i] == Placeholder && r[c][i + 1] == Card(after.value))
      && (after.None? && Placeholder in cols[c] ==> r == cols)
      && ((after.None? && Placeholder !in cols[c]) || (after.Some? && Card(after.value) !in cols[c]) ==>
            r[c] == RemoveFrom(cols[c], Placeholder) + [Placeholder])
  {
    if after.None? && Placeholder in cols[c] {
    } else if after.Some? && Card(after.value) in cols[c] {
      InsertPlaceholderSpec(cols, c, after.value);
    } else {
      AppendPlaceholderSpec(cols, c);
    }
  }

  /**
   * `updatePlaceholderInColumn` after the touch point entered column `c`:
   * the placeholder is placed only when `c` does not hold it yet, so moving
   * within a column never repositions it.  The chosen card is a child of
   * `c`, as the resolver guarantees.
   */
  function TouchPlaceholder(cols: Columns, c: ColumnId, after: Option<TaskId>): Columns
    requires c in cols && (after.Some? ==> Card(after.value) in cols[c])
  {
    if Placeholder in cols[c] then cols
    else if after.None? then AppendChild(cols, c, Placeholder)
    else InsertBefore(cols, c, Placeholder, Card(after.value))
  }

  lemma TouchPlaceholderSpec(cols: Columns, c: ColumnId, after: Option<TaskId>)
    requires Wf(cols) && c in cols && (after.Some? ==> Card(after.value) in cols[c])
    ensures var r := TouchPlaceholder(cols, c, after);
      Wf(r) && SameCardOrder(r, cols) && PlaceholderOnlyIn(r, c)
      && (Placeholder in cols[c] ==> r == cols)
      && (Placeholder !in cols[c] && after.Some? ==>
            exists i :: 0 <= i < |r[c]| - 1 && r[c][i] == Placeholder && r[c][i + 1] == Card(after.value))
      && (Placeholder !in cols[c] && after.None? ==> r[c] == cols[c] + [Placeholder])
  {
    if Placeholder !in cols[c] {
      if after.None? {
        AppendPlaceholderSpec(cols, c);
        RemoveFromAbsent(cols[c], Placeholder);
      } else {
        InsertPlaceholderSpec(cols, c, after.value);
      }
    }
  }
}
