/**
 * The insertion-point resolver `getDragAfterElement`: one left-to-right
 * reduction over a column's cards that are not being dragged, keeping the
 * card whose vertical midpoint lies below the pointer and closest to it.
 *
 * Card boxes and the pointer are integers.  The source's offset
 * `y - top - height / 2` is compared only with 0 and with other offsets,
 * so the model uses twice that value, which keeps every comparison exact.
 */
module DragResolver {
  import opened Wrappers
  import opened Board

  /** A card's bounding box as `getBoundingClientRect` reports it (top edge and height). */
  datatype Box = Box(top: int, height: int)

  /** Geometry is an input: the box each card currently occupies. */
  type Layout = TaskId -> Box

  datatype Candidate = Candidate(id: TaskId, box: Box)

  /** `-Infinity` or a finite offset. */
  datatype Offset = NegInfinity | Finite(v: int)

  /** The accumulator `{ offset, element }`; the seed `{ offset: -Infinity }` has no element. */
  datatype Closest = Closest(offset: Offset, element: Option<TaskId>)

  /** Twice the source's `y - box.top - box.height / 2`. */
  function Offset2(y: int, b: Box): int {
    2 * (y - b.top) - b.height
  }

  predicate Above(o: int, best: Offset) {
    best.NegInfinity? || o > best.v
  }

  /** One step of the reduction. */
  function Step(y: int, closest: Closest, child: Candidate): Closest {
    var o := Offset2(y, child.box);
    if o < 0 && Above(o, closest.offset) then Closest(Finite(o), Some(child.id)) else closest
  }

  /** `Array.prototype.reduce` from the left. */
  function Reduce(y: int, acc: Closest, cards: seq<Candidate>): Closest
    decreases |cards|
  {
    if cards == [] then acc else Reduce(y, Step(y, acc, cards[0]), cards[1..])
  }

  /** `getDragAfterElement(container, y)` on the column's candidate cards. */
  function GetDragAfterElement(y: int, cards: seq<Candidate>): Option<TaskId> {
    Reduce(y, Closest(NegInfinity, None), cards).element
  }

  /** `.draggable-cards:not(.dragging)` inside a column, in document order, with their boxes. */
  function Candidates(children: seq<Node>, dragging: set<TaskId>, layout: Layout): (r: seq<Candidate>)
    ensures |r| <= |children|
    ensures forall k :: 0 <= k < |r| ==> Card(r[k].id) in children && r[k].id !in dragging
    ensures forall k :: 0 <= k < |r| ==> r[k].box == layout(r[k].id)
  {
    if children == [] then []
    else
      var head := children[0];
      (if head.Card? && head.id !in dragging then [Candidate(head.id, layout(head.id))] else [])
      + Candidates(children[1..], dragging, layout)
  }

  /**
   * Card `k` is the one the dragged item goes before: its midpoint is below
   * the pointer, no such card is nearer, and every earlier card is strictly
   * farther (so the earliest of equally near cards wins).
   */
  predicate IsNearestBelow(y: int, cards: seq<Candidate>, k: int) {
    0 <= k < |cards|
    && Offset2(y, cards[k].box) < 0
    && (forall j :: 0 <= j < |cards| && Offset2(y, cards[j].box) < 0 ==> Offset2(y, cards[j].box) <= Offset2(y, cards[k].box))
    && (forall j :: 0 <= j < k && Offset2(y, cards[j].box) < 0 ==> Offset2(y, cards[j].box) < Offset2(y, cards[k].box))
  }

  predicate NoneBelow(y: int, cards: seq<Candidate>) {
    forall j :: 0 <= j < |cards| ==> Offset2(y, cards[j].box) >= 0
  }

  /**
   * Invariant of the reduction after a prefix: the accumulator holds the
   * nearest-below card of the prefix, or the seed when there is none.
   */
  ghost predicate Summarises(y: int, pre: seq<Candidate>, acc: Closest) {
    (NoneBelow(y, pre) && acc == Closest(NegInfinity, None))
    || (exists k :: 0 <= k < |pre| && IsNearestBelow(y, pre, k)
          && acc == Closest(Finite(Offset2(y, pre[k].box)), Some(pre[k].id)))
  }

  lemma StepKeepsSummary(y: int, pre: seq<Candidate>, acc: Closest, c: Candidate)
    requires Summarises(y, pre, acc)
    ensures Summarises(y, pre + [c], Step(y, acc, c))
  {
    var s := pre + [c];
    var o := Offset2(y, c.box);
    assert forall j :: 0 <= j < |pre| ==> s[j] == pre[j];
    if NoneBelow(y, pre) && acc == Closest(NegInfinity, None) {
      if o < 0 {
        assert IsNearestBelow(y, s, |pre|);
      } else {
        assert NoneBelow(y, s);
      }
    } else {
      var k :| 0 <= k < |pre| && IsNearestBelow(y, pre, k)
        && acc == Closest(Finite(Offset2(y, pre[k].box)), Some(pre[k].id));
      if o < 0 && o > Offset2(y, pre[k].box) {
        assert IsNearestBelow(y, s, |pre|);
      } else {
        assert IsNearestBelow(y, s, k);
      }
    }
  }

  lemma {:induction false} ReduceSummarises(y: int, pre: seq<Candidate>, acc: Closest, rest: seq<Candidate>)
    requires Summarises(y, pre, acc)
    ensures Summarises(y, pre + rest, Reduce(y, acc, rest))
    decreases |rest|
  {
    if rest == [] {
      assert pre + rest == pre;
    } else {
      var pre' := pre + [rest[0]];
      var acc' := Step(y, acc, rest[0]);
      StepKeepsSummary(y, pre, acc, rest[0]);
      ReduceSummarises(y, pre', acc', rest[1..]);
      assert pre' + rest[1..] == pre + rest;
    }
  }

  /**
   * The resolver returns nothing exactly when the pointer is below every
   * card's midpoint, and otherwise the nearest card whose midpoint is below
   * the pointer, the earliest one on ties.
   */
  lemma GetDragAfterElementSpec(y: int, cards: seq<Candidate>)
    ensures GetDragAfterElement(y, cards).None? <==> NoneBelow(y, cards)
    ensures GetDragAfterElement(y, cards).Some? ==>
      exists k :: IsNearestBelow(y, cards, k) && cards[k].id == GetDragAfterElement(y, cards).value
  {
    assert Summarises(y, [], Closest(NegInfinity, None));
    assert [] + cards == cards;
    ReduceSummarises(y, [], Closest(NegInfinity, None), cards);
    var r := Reduce(y, Closest(NegInfinity, None), cards);
    if !NoneBelow(y, cards) {
      var j :| 0 <= j < |cards| && Offset2(y, cards[j].box) < 0;
      assert !(r == Closest(NegInfinity, None) && NoneBelow(y, cards));
    }
  }

  /** At most one card is the nearest-below card, so the resolver's answer is determined by the boxes. */
  lemma NearestBelowUnique(y: int, cards: seq<Candidate>, k1: int, k2: int)
    requires IsNearestBelow(y, cards, k1) && IsNearestBelow(y, cards, k2)
    ensures k1 == k2
  {
    if k1 < k2 {
      assert false;
    } else if k2 < k1 {
      assert false;
    }
  }

  /** The card chosen in a column is one of its children and never the card being dragged. */
  lemma AfterElementInColumn(y: int, children: seq<Node>, dragging: set<TaskId>, layout: Layout)
    ensures var r := GetDragAfterElement(y, Candidates(children, dragging, layout));
      r.Some? ==> Card(r.value) in children && r.value !in dragging
  {
    var cards := Candidates(children, dragging, layout);
    GetDragAfterElementSpec(y, cards);
  }
}
