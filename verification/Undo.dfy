/**
 * The undo history as its users see it: the current value, the values that the
 * open sessions would go back to (oldest first), and the revision counter.
 *
 * GenericIndex keeps such a history as a stack of deltas and proves that each of
 * its methods acts on it as the function of the same name below; the chain
 * controller is written on top of these functions.
 */
module Undo {

  datatype History<S> = History(current: S, saved: seq<S>, revision: int) {

    function Write(s: S): History<S> {
      this.(current := s)
    }

    function StartSession(): History<S> {
      History(current, saved + [current], revision + 1)
    }

    // Undoing with no open session changes nothing.
    function UndoTop(): History<S> {
      if saved == [] then this
      else History(saved[|saved| - 1], saved[..|saved| - 1], revision - 1)
    }

    // With exactly one open session the revision is not decremented.
    function Squash(): History<S> {
      if saved == [] then this
      else if |saved| == 1 then History(current, [], revision)
      else History(current, saved[..|saved| - 1], revision - 1)
    }

    // The revision of saved[i] when its session was opened.
    function RevisionOf(i: int): int {
      revision - |saved| + 1 + i
    }

    // How many of the oldest saved values have a revision of at most r.
    function Committed(r: int): nat {
      if r < RevisionOf(0) then 0
      else if RevisionOf(|saved| - 1) <= r then |saved|
      else r - RevisionOf(0) + 1
    }

    function Commit(r: int): History<S> {
      this.(saved := saved[Committed(r)..])
    }

    function UndoAll(): History<S> {
      if saved == [] then this
      else History(saved[0], [], revision - |saved|)
    }
  }

  // ---------- Runs ----------

  datatype Step<S> =
    | Write(value: S)      // any create, modify or remove
    | Start                // start_undo_session; session::push leaves the history as it is
    | UndoOne              // session::undo, or a session destroyed while still armed
    | SquashOne            // session::squash
    | CommitTo(r: int)

  function Apply<S>(h: History<S>, step: Step<S>): History<S> {
    match step
    case Write(s) => h.Write(s)
    case Start => h.StartSession()
    case UndoOne => h.UndoTop()
    case SquashOne => h.Squash()
    case CommitTo(r) => h.Commit(r)
  }

  function Run<S>(h: History<S>, steps: seq<Step<S>>): History<S>
    decreases |steps|
  {
    if steps == [] then h else Run(Apply(h, steps[0]), steps[1..])
  }

  // The steps taken inside a session of revision `rev`, with `nested` sessions open inside it:
  // none ends the session itself, and none commits it.
  ghost predicate Inside<S>(steps: seq<Step<S>>, nested: nat, rev: int) {
    steps == [] ||
    match steps[0]
    case Write(_) => Inside(steps[1..], nested, rev)
    case Start => Inside(steps[1..], nested + 1, rev)
    case UndoOne => nested > 0 && Inside(steps[1..], nested - 1, rev)
    case SquashOne => nested > 0 && Inside(steps[1..], nested - 1, rev)
    case CommitTo(r) => r < rev && Inside(steps[1..], nested, rev)
  }

  function UndoTimes<S>(h: History<S>, n: nat): History<S>
    decreases n
  {
    if n == 0 then h else UndoTimes(h.UndoTop(), n - 1)
  }

  lemma {:induction false} UndoTimesIs<S>(h: History<S>, n: nat)
    requires 1 <= n <= |h.saved|
    ensures UndoTimes(h, n) == History(h.saved[|h.saved| - n], h.saved[..|h.saved| - n], h.revision - n)
    decreases n
  {
    if n > 1 {
      UndoTimesIs(h.UndoTop(), n - 1);
    } else {
      assert UndoTimes(h, 1) == UndoTimes(h.UndoTop(), 0) == h.UndoTop();
    }
  }

  // The session opened with value s0 is the saved value with revision `rev`, and below it lies
  // what commits have left of `below`.
  ghost predicate Holds<S>(h: History<S>, nested: nat, s0: S, below: seq<S>, rev: int) {
    && |h.saved| >= nested + 1
    && h.RevisionOf(|h.saved| - nested - 1) == rev
    && h.saved[|h.saved| - nested - 1] == s0
    && |h.saved| - nested - 1 <= |below|
    && h.saved[..|h.saved| - nested - 1] == below[|below| - (|h.saved| - nested - 1)..]
  }

  function NestedAfterStep<S>(step: Step<S>, nested: nat): nat {
    match step
    case Start => nested + 1
    case UndoOne => if nested > 0 then nested - 1 else 0
    case SquashOne => if nested > 0 then nested - 1 else 0
    case _ => nested
  }

  function NestedAfter<S>(steps: seq<Step<S>>, nested: nat): nat
    decreases |steps|
  {
    if steps == [] then nested else NestedAfter(steps[1..], NestedAfterStep(steps[0], nested))
  }

  lemma {:induction false} InsideHolds<S>(h: History<S>, steps: seq<Step<S>>, nested: nat, s0: S, below: seq<S>, rev: int)
    requires Holds(h, nested, s0, below, rev)
    requires Inside(steps, nested, rev)
    ensures Holds(Run(h, steps), NestedAfter(steps, nested), s0, below, rev)
    decreases |steps|
  {
    if steps != [] {
      InsideHoldsStep(h, steps[0], nested, s0, below, rev);
      InsideHolds(Apply(h, steps[0]), steps[1..], NestedAfterStep(steps[0], nested), s0, below, rev);
    }
  }

  lemma InsideHoldsStep<S>(h: History<S>, step: Step<S>, nested: nat, s0: S, below: seq<S>, rev: int)
    requires Holds(h, nested, s0, below, rev)
    requires Inside([step], nested, rev)
    ensures Holds(Apply(h, step), NestedAfterStep(step, nested), s0, below, rev)
  {
    var h' := Apply(h, step);
    var p := |h.saved| - nested - 1;
    if step.CommitTo? {
      var k := h.Committed(step.r);
      assert k <= p;
      assert h'.saved[..p - k] == h.saved[..p][k..];
      assert below[|below| - p..][k..] == below[|below| - (p - k)..];
    } else {
      assert h'.saved[..p] == h.saved[..p];
    }
  }

  /**
   * Whatever is done inside a session, in any nesting, undoing out of it brings back the value,
   * the revision and the outer sessions it was opened over; commits made meanwhile may only
   * have dropped some of the oldest outer sessions.
   */
  lemma {:induction false} UnwindRestores<S>(h: History<S>, steps: seq<Step<S>>)
    requires Inside(steps, 0, h.revision + 1)
    ensures
      var r := UndoTimes(Run(h.StartSession(), steps), NestedAfter(steps, 0) + 1);
      && r.current == h.current
      && r.revision == h.revision
      && |r.saved| <= |h.saved|
      && r.saved == h.saved[|h.saved| - |r.saved|..]
  {
    var h1 := h.StartSession();
    assert h1.saved[..|h.saved|] == h.saved;
    hide Inside, NestedAfter, Run, UndoTimes;
    InsideHolds(h1, steps, 0, h.current, h.saved, h.revision + 1);
    var h2 := Run(h1, steps);
    UndoTimesIs(h2, NestedAfter(steps, 0) + 1);
  }

  // Without commits the whole history comes back.
  lemma {:induction false} UnwindRestoresAll<S>(h: History<S>, steps: seq<Step<S>>)
    requires Inside(steps, 0, h.revision + 1)
    requires forall i :: 0 <= i < |steps| ==> !steps[i].CommitTo?
    ensures UndoTimes(Run(h.StartSession(), steps), NestedAfter(steps, 0) + 1) == h
  {
    UnwindRestores(h, steps);
    var h1 := h.StartSession();
    KeepsDepth(h1, steps, 0, h.revision + 1);
    UndoTimesIs(Run(h1, steps), NestedAfter(steps, 0) + 1);
  }

  lemma {:induction false} KeepsDepth<S>(h: History<S>, steps: seq<Step<S>>, nested: nat, rev: int)
    requires |h.saved| >= nested + 1
    requires forall i :: 0 <= i < |steps| ==> !steps[i].CommitTo?
    requires Inside(steps, nested, rev)
    ensures |Run(h, steps).saved| - NestedAfter(steps, nested) == |h.saved| - nested
    decreases |steps|
  {
    if steps != [] {
      KeepsDepth(Apply(h, steps[0]), steps[1..], NestedAfterStep(steps[0], nested), rev);
    }
  }

  // With at least two open sessions, squash and one undo go where two undos go. With one, squash
  // forgets it: the undo that follows changes nothing and the revision stays as it was.
  lemma SquashThenUndo<S>(h: History<S>)
    ensures |h.saved| >= 2 ==> h.Squash().UndoTop() == h.UndoTop().UndoTop()
    ensures |h.saved| == 1 ==> h.Squash().UndoTop() == h.(saved := [])
    ensures h.Squash().current == h.current
  {
  }

  // Commit drops exactly the saved values whose revision is at most r, and keeps the order of the rest.
  lemma CommitKeepsLater<S>(h: History<S>, r: int, i: nat)
    requires i < |h.saved|
    ensures h.Committed(r) <= |h.saved|
    ensures h.RevisionOf(i) <= r <==> i < h.Committed(r)
    ensures h.RevisionOf(i) > r ==>
      var j := i - h.Committed(r);
      h.Commit(r).saved[j] == h.saved[i] && h.Commit(r).RevisionOf(j) == h.RevisionOf(i)
  {
  }

  lemma SessionUndone<S>(h: History<S>, s: S)
    ensures h.StartSession().Write(s).UndoTop() == h
  {
    assert h.StartSession().saved[..|h.saved|] == h.saved;
  }

  // A commit made inside a session stays when the session is undone.
  lemma CommitOutlivesSession<S>(h: History<S>, s: S, r: int)
    requires r <= h.revision
    ensures h.StartSession().Write(s).Commit(r).UndoTop() == h.Commit(r)
  {
    var h1 := h.StartSession().Write(s);
    var k := h1.Committed(r);
    assert k == h.Committed(r) && k <= |h.saved|;
    assert h1.saved[k..][..|h.saved| - k] == h.saved[k..];
  }
}
