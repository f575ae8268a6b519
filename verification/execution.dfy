/**
 * The two execution shapes every generator and converter shares.
 *
 * Sequential: task i runs at step i; a failing task is skipped and the
 * successes are collected in index order.
 *
 * Concurrent: a list of `n` empty slots is pre-sized; tasks complete in
 * some order (`as_completed`), a successful task writes its own slot, and
 * the final list is the filled slots in index order. The completion order
 * is a parameter; the lemmas below show the final list does not depend on
 * it and that every intermediate view is a subsequence of the final list.
 *
 * A task's outcome is `Some(record)` on success and `None` when it raised
 * or returned nothing.
 */
module Execution {

  import opened Wrappers

  // ---------------------------------------------------------------------
  // Collecting successes

  /** `[s for s in slots if s is not None]` */
  function Successes<T(==)>(outcomes: seq<Option<T>>): (r: seq<T>)
    ensures |r| <= |outcomes|
  {
    if |outcomes| == 0 then []
    else
      var last := outcomes[|outcomes| - 1];
      Successes(outcomes[..|outcomes| - 1]) + (if last.Some? then [last.value] else [])
  }

  /** `[f(x) for x in xs]`: the outcome of every task, in task order. */
  function MapSeq<A, B>(f: A -> B, xs: seq<A>): (r: seq<B>)
    ensures |r| == |xs|
    ensures forall i :: 0 <= i < |xs| ==> r[i] == f(xs[i])
  {
    seq(|xs|, i requires 0 <= i < |xs| => f(xs[i]))
  }

  /** One more task adds its outcome at the end. */
  lemma MapSeqSnoc<A, B>(f: A -> B, xs: seq<A>)
    requires |xs| > 0
    ensures MapSeq(f, xs) == MapSeq(f, xs[..|xs| - 1]) + [f(xs[|xs| - 1])]
  {
    var init := xs[..|xs| - 1];
    assert forall k :: 0 <= k < |init| ==> init[k] == xs[k];
  }

  /** The number of successful outcomes. */
  function CountSome<T(==)>(outcomes: seq<Option<T>>): nat {
    if |outcomes| == 0 then 0
    else CountSome(outcomes[..|outcomes| - 1]) + (if outcomes[|outcomes| - 1].Some? then 1 else 0)
  }

  /** Collection keeps every success and nothing else, in index order. */
  lemma {:induction false} SuccessesAppend<T>(a: seq<Option<T>>, b: seq<Option<T>>)
    ensures Successes(a + b) == Successes(a) + Successes(b)
    decreases |b|
  {
    if |b| == 0 {
      assert a + b == a;
    } else {
      var c := b[..|b| - 1];
      assert (a + b)[..|a + b| - 1] == a + c;
      SuccessesAppend(a, c);
    }
  }

  lemma {:induction false} SuccessesLength<T>(outcomes: seq<Option<T>>)
    ensures |Successes(outcomes)| == CountSome(outcomes)
    decreases |outcomes|
  {
    if |outcomes| > 0 {
      SuccessesLength(outcomes[..|outcomes| - 1]);
    }
  }

  /** Every outcome a success: nothing is dropped. */
  lemma {:induction false} AllSucceed<T>(outcomes: seq<Option<T>>)
    requires forall i :: 0 <= i < |outcomes| ==> outcomes[i].Some?
    ensures |Successes(outcomes)| == |outcomes|
    ensures forall i :: 0 <= i < |outcomes| ==> Successes(outcomes)[i] == outcomes[i].value
    decreases |outcomes|
  {
    if |outcomes| > 0 {
      AllSucceed(outcomes[..|outcomes| - 1]);
    }
  }

  /** A record is collected exactly when some task produced it. */
  lemma {:induction false} InSuccesses<T>(outcomes: seq<Option<T>>, x: T)
    ensures x in Successes(outcomes) <==> Some(x) in outcomes
    decreases |outcomes|
  {
    if |outcomes| > 0 {
      var init := outcomes[..|outcomes| - 1];
      InSuccesses(init, x);
      assert outcomes == init + [outcomes[|outcomes| - 1]];
    }
  }

  /** The collected list is empty exactly when no task succeeded. */
  lemma SuccessesEmpty<T>(outcomes: seq<Option<T>>)
    ensures |Successes(outcomes)| == 0 <==> forall i :: 0 <= i < |outcomes| ==> outcomes[i].None?
  {
    if |Successes(outcomes)| > 0 {
      InSuccesses(outcomes, Successes(outcomes)[0]);
    } else {
      forall i | 0 <= i < |outcomes| ensures outcomes[i].None? {
        if outcomes[i].Some? {
          InSuccesses(outcomes, outcomes[i].value);
        }
      }
    }
  }

  // ---------------------------------------------------------------------
  // Prefixes and subsequences

  predicate IsPrefix<T(==)>(a: seq<T>, b: seq<T>) {
    |a| <= |b| && b[..|a|] == a
  }

  /** `a` can be obtained from `b` by deleting elements. */
  predicate IsSubsequence<T(==)>(a: seq<T>, b: seq<T>)
    decreases |b|
  {
    if |a| == 0 then true
    else if |b| == 0 then false
    else if a[|a| - 1] == b[|b| - 1] then IsSubsequence(a[..|a| - 1], b[..|b| - 1])
    else IsSubsequence(a, b[..|b| - 1])
  }

  /** Appending to the longer sequence keeps a subsequence one. */
  lemma {:induction false} SubsequenceWeaken<T>(a: seq<T>, b: seq<T>, x: T)
    requires IsSubsequence(a, b)
    ensures IsSubsequence(a, b + [x])
    decreases |b|, 1
  {
    if |a| > 0 {
      var bx := b + [x];
      assert bx[..|bx| - 1] == b;
      if a[|a| - 1] == x {
        SubsequenceDropLast(a, b);
      }
    }
  }

  /** Dropping the last element of a subsequence keeps it one. */
  lemma {:induction false} SubsequenceDropLast<T>(a: seq<T>, b: seq<T>)
    requires |a| > 0 && IsSubsequence(a, b)
    ensures IsSubsequence(a[..|a| - 1], b)
    decreases |b|, 0
  {
    var b' := b[..|b| - 1];
    assert b == b' + [b[|b| - 1]];
    if a[|a| - 1] == b[|b| - 1] {
      SubsequenceWeaken(a[..|a| - 1], b', b[|b| - 1]);
    } else {
      SubsequenceDropLast(a, b');
      SubsequenceWeaken(a[..|a| - 1], b', b[|b| - 1]);
    }
  }

  lemma {:induction false} SubsequenceReflexive<T>(a: seq<T>)
    ensures IsSubsequence(a, a)
    decreases |a|
  {
    if |a| > 0 {
      SubsequenceReflexive(a[..|a| - 1]);
    }
  }

  lemma {:induction false} PrefixIsSubsequence<T>(a: seq<T>, b: seq<T>)
    requires IsPrefix(a, b)
    ensures IsSubsequence(a, b)
    decreases |b|
  {
    if |a| == |b| {
      assert a == b;
      SubsequenceReflexive(a);
    } else {
      var b' := b[..|b| - 1];
      assert IsPrefix(a, b');
      PrefixIsSubsequence(a, b');
      SubsequenceWeaken(a, b', b[|b| - 1]);
      assert b' + [b[|b| - 1]] == b;
    }
  }

  // ---------------------------------------------------------------------
  // Sequential runs

  /** What a sequential run has collected after steps `0..k-1`. */
  lemma {:induction false} SequentialPrefix<T>(outcomes: seq<Option<T>>, k: nat)
    requires k <= |outcomes|
    ensures IsPrefix(Successes(outcomes[..k]), Successes(outcomes))
  {
    assert outcomes == outcomes[..k] + outcomes[k..];
    SuccessesAppend(outcomes[..k], outcomes[k..]);
  }

  /** Periodic saves of a sequential run: after step i the collected list is
      saved when step i succeeded and `(i+1) % every == 0`. */
  function PeriodicSaves<T(==)>(outcomes: seq<Option<T>>, every: nat): (r: seq<seq<T>>)
    requires every > 0
    ensures |r| <= |outcomes|
    ensures forall k :: 0 <= k < |r| ==> |r[k]| > 0
  {
    if |outcomes| == 0 then []
    else
      var n := |outcomes|;
      var earlier := PeriodicSaves(outcomes[..n - 1], every);
      if outcomes[n - 1].Some? && n % every == 0 then earlier + [Successes(outcomes)] else earlier
  }

  /** Every periodic save of a sequential run is a prefix of its final list:
      a crash after a save loses only the records collected later. */
  lemma {:induction false} PeriodicSavesArePrefixes<T>(outcomes: seq<Option<T>>, every: nat)
    requires every > 0
    ensures forall k :: 0 <= k < |PeriodicSaves(outcomes, every)| ==>
              IsPrefix(PeriodicSaves(outcomes, every)[k], Successes(outcomes))
    decreases |outcomes|
  {
    if |outcomes| > 0 {
      var n := |outcomes|;
      var init := outcomes[..n - 1];
      PeriodicSavesArePrefixes(init, every);
      SequentialPrefix(outcomes, n - 1);
      assert outcomes[..n - 1] == init;
      var r := PeriodicSaves(outcomes, every);
      forall k | 0 <= k < |r| ensures IsPrefix(r[k], Successes(outcomes)) {
        if k < |PeriodicSaves(init, every)| {
          var s := PeriodicSaves(init, every)[k];
          assert r[k] == s;
          assert IsPrefix(s, Successes(init));
        }
      }
    }
  }

  /** A save follows step i exactly when step i succeeded and `(i+1) % every
      == 0`: a run with no successful multiple-of-`every` step never saves
      early. */
  lemma {:induction false} NoPeriodicSave<T>(outcomes: seq<Option<T>>, every: nat)
    requires every > 0
    requires forall i :: 0 <= i < |outcomes| && (i + 1) % every == 0 ==> outcomes[i].None?
    ensures PeriodicSaves(outcomes, every) == []
    decreases |outcomes|
  {
    if |outcomes| > 0 {
      NoPeriodicSave(outcomes[..|outcomes| - 1], every);
    }
  }

  // ---------------------------------------------------------------------
  // Concurrent runs

  /** The completion order lists every task index exactly once and no
      other: what `as_completed` over `n` submitted futures yields. */
  predicate CoversTasks(order: seq<nat>, n: nat) {
    && |order| == n
    && (forall k :: 0 <= k < |order| ==> order[k] < n)
    && (forall i :: 0 <= i < n ==> i in order)
  }

  predicate InRange(order: seq<nat>, n: nat) {
    forall k :: 0 <= k < |order| ==> order[k] < n
  }

  /** Store one completed task: a success writes its own slot, a failure
      leaves the slot empty. */
  function Settle<T(==)>(slots: seq<Option<T>>, index: nat, outcome: Option<T>): (r: seq<Option<T>>)
    requires index < |slots|
    ensures |r| == |slots|
  {
    if outcome.Some? then slots[index := outcome] else slots
  }

  /** The slots after the tasks in `order` have completed, starting from
      `n` empty slots. */
  function SlotsAfter<T(==)>(outcomes: seq<Option<T>>, order: seq<nat>): (r: seq<Option<T>>)
    requires InRange(order, |outcomes|)
    ensures |r| == |outcomes|
  {
    if |order| == 0 then seq(|outcomes|, _ => None)
    else
      var init := order[..|order| - 1];
      var i := order[|order| - 1];
      Settle(SlotsAfter(outcomes, init), i, outcomes[i])
  }

  /** Slot i holds task i's outcome once task i has completed, and is empty
      before. */
  lemma {:induction false} SlotsAfterContents<T>(outcomes: seq<Option<T>>, order: seq<nat>)
    requires InRange(order, |outcomes|)
    ensures forall i :: 0 <= i < |outcomes| ==>
              SlotsAfter(outcomes, order)[i] == if i in order then outcomes[i] else None
    decreases |order|
  {
    if |order| > 0 {
      var init := order[..|order| - 1];
      assert InRange(init, |outcomes|);
      SlotsAfterContents(outcomes, init);
      assert order == init + [order[|order| - 1]];
      forall i | 0 <= i < |outcomes|
        ensures SlotsAfter(outcomes, order)[i] == if i in order then outcomes[i] else None
      {
        assert i in order <==> i in init || i == order[|order| - 1];
      }
    }
  }

  /** Once every task has completed, the slots are exactly the outcomes. */
  lemma AllSettled<T>(outcomes: seq<Option<T>>, order: seq<nat>)
    requires CoversTasks(order, |outcomes|)
    ensures SlotsAfter(outcomes, order) == outcomes
  {
    SlotsAfterContents(outcomes, order);
  }

  /** The final list of a concurrent run. */
  function ConcurrentResult<T(==)>(outcomes: seq<Option<T>>, order: seq<nat>): (r: seq<T>)
    requires CoversTasks(order, |outcomes|)
    ensures r == Successes(outcomes)
    ensures |r| <= |outcomes|
  {
    AllSettled(outcomes, order);
    Successes(SlotsAfter(outcomes, order))
  }

  /** The concurrent result does not depend on the completion order, and it
      is the sequential result. */
  lemma OrderIndependent<T>(outcomes: seq<Option<T>>, order1: seq<nat>, order2: seq<nat>)
    requires CoversTasks(order1, |outcomes|) && CoversTasks(order2, |outcomes|)
    ensures ConcurrentResult(outcomes, order1) == ConcurrentResult(outcomes, order2)
  {
  }

  /** Each slot is empty or holds its task's outcome. */
  predicate Below<T(==)>(slots: seq<Option<T>>, outcomes: seq<Option<T>>) {
    |slots| == |outcomes| && forall i :: 0 <= i < |slots| ==> slots[i].None? || slots[i] == outcomes[i]
  }

  lemma {:induction false} BelowSubsequence<T>(slots: seq<Option<T>>, outcomes: seq<Option<T>>)
    requires Below(slots, outcomes)
    ensures IsSubsequence(Successes(slots), Successes(outcomes))
    decreases |outcomes|
  {
    if |outcomes| == 0 {
    } else {
      var n := |outcomes|;
      var s, o := slots[..n - 1], outcomes[..n - 1];
      assert Below(s, o);
      BelowSubsequence(s, o);
      var a, b := Successes(slots), Successes(outcomes);
      if slots[n - 1].Some? {
        assert a == Successes(s) + [slots[n - 1].value];
        assert b == Successes(o) + [slots[n - 1].value];
        assert a[..|a| - 1] == Successes(s);
        assert b[..|b| - 1] == Successes(o);
      } else if outcomes[n - 1].Some? {
        assert a == Successes(s);
        assert b == Successes(o) + [outcomes[n - 1].value];
        SubsequenceWeaken(Successes(s), Successes(o), outcomes[n - 1].value);
      } else {
        assert a == Successes(s) && b == Successes(o);
      }
    }
  }

  /** What a concurrent run sees after each completion: the successes of the
      slots filled so far. `Views(...)[c - 1]` is the view after `c`
      completions. */
  function Views<T(==)>(outcomes: seq<Option<T>>, order: seq<nat>): (r: seq<seq<T>>)
    requires InRange(order, |outcomes|)
    ensures |r| == |order|
  {
    if |order| == 0 then []
    else
      var init := order[..|order| - 1];
      Views(outcomes, init) + [Successes(SlotsAfter(outcomes, order))]
  }

  lemma {:induction false} ViewsAt<T>(outcomes: seq<Option<T>>, order: seq<nat>, c: nat)
    requires InRange(order, |outcomes|)
    requires 0 < c <= |order|
    ensures InRange(order[..c], |outcomes|)
    ensures Views(outcomes, order)[c - 1] == Successes(SlotsAfter(outcomes, order[..c]))
    decreases |order|
  {
    if c < |order| {
      var init := order[..|order| - 1];
      assert init[..c] == order[..c];
      ViewsAt(outcomes, init, c);
    } else {
      assert order[..c] == order;
    }
  }

  /** Every intermediate view, hence every periodic snapshot of a
      concurrent run, is a subsequence of the final list. */
  lemma ViewsAreSubsequences<T>(outcomes: seq<Option<T>>, order: seq<nat>)
    requires InRange(order, |outcomes|)
    ensures forall c :: 0 <= c < |order| ==>
              IsSubsequence(Views(outcomes, order)[c], Successes(outcomes))
  {
    forall c | 0 <= c < |order|
      ensures IsSubsequence(Views(outcomes, order)[c], Successes(outcomes))
    {
      ViewsAt(outcomes, order, c + 1);
      var slots := SlotsAfter(outcomes, order[..c + 1]);
      SlotsAfterContents(outcomes, order[..c + 1]);
      assert Below(slots, outcomes);
      BelowSubsequence(slots, outcomes);
    }
  }

  /** Snapshots of a concurrent run: after the c-th completion the view is
      saved when `c % every == 0` and the view is non-empty. */
  function ConcurrentSaves<T(==)>(views: seq<seq<T>>, every: nat): (r: seq<seq<T>>)
    requires every > 0
    ensures |r| <= |views|
    ensures forall k :: 0 <= k < |r| ==> |r[k]| > 0 && r[k] in views
  {
    if |views| == 0 then []
    else
      var c := |views|;
      var earlier := ConcurrentSaves(views[..c - 1], every);
      if c % every == 0 && |views[c - 1]| > 0 then earlier + [views[c - 1]] else earlier
  }

  /** Every snapshot a concurrent run saves is a non-empty subsequence of its
      final list. */
  lemma SnapshotsAreSubsequences<T>(outcomes: seq<Option<T>>, order: seq<nat>, every: nat)
    requires CoversTasks(order, |outcomes|) && every > 0
    ensures forall s :: s in ConcurrentSaves(Views(outcomes, order), every) ==>
              |s| > 0 && IsSubsequence(s, ConcurrentResult(outcomes, order))
  {
    var views := Views(outcomes, order);
    ViewsAreSubsequences(outcomes, order);
    forall s | s in ConcurrentSaves(views, every)
      ensures |s| > 0 && IsSubsequence(s, ConcurrentResult(outcomes, order))
    {
      var c :| 0 <= c < |views| && views[c] == s;
    }
  }
}
