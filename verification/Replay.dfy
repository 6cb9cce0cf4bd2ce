/**
 ReplayWindow (src/L1/ReplayWindow.cpp): which sequence numbers were seen.
 Strict for reliable packets, sliding past a hole for best-effort ones.
 Numbers are 32-bit on the wire and 64-bit here, so `last + window` never wraps.
 */
module Replay {
  datatype Verdict = IsFresh | IsDuplicate | IsTooFar

  datatype Window = Window(size: nat, slides: bool, last: nat, pending: set<nat>)

  function NewWindow(size: nat, slides: bool): Window {
    Window(size, slides, 0, {})
  }

  /** The numbers a window has seen, as far as it remembers: all up to `last`, and the pending ones. */
  predicate Seen(w: Window, n: nat) {
    n <= w.last || n in w.pending
  }

  ghost predicate Valid(w: Window) {
    forall n :: n in w.pending ==> w.last + 1 < n <= w.last + w.size
  }

  /** Classify. */
  function Judge(w: Window, n: nat): Verdict {
    if n == 0 || n <= w.last || n in w.pending then IsDuplicate
    else if n > w.last + w.size && !w.slides then IsTooFar
    else IsFresh
  }

  /** `last` moved over the pending numbers that follow on from it. */
  function Advanced(last: nat, pending: set<nat>): (nat, set<nat>)
    decreases pending
  {
    if last + 1 in pending then Advanced(last + 1, pending - {last + 1}) else (last, pending)
  }

  /** Accept: the window after it, and whether the number was taken. */
  function AfterAccept(w: Window, n: nat): (Window, bool) {
    if n <= w.last then (w, false)
    else if n == w.last + 1 then
      var (last, pending) := Advanced(n, w.pending);
      (w.(last := last, pending := pending), true)
    else if n > w.last + w.size then
      if w.slides then (w.(last := n, pending := {}), true) else (w, false)
    else (w.(pending := w.pending + {n}), n !in w.pending)
  }

  class ReplayWindow {
    const windowSize: nat
    const slideOnGap: bool
    var lastContiguous: nat
    var pending: set<nat>

    ghost function State(): Window
      reads this
    {
      Window(windowSize, slideOnGap, lastContiguous, pending)
    }

    constructor (windowSize: nat, slideOnGap: bool)
      ensures State() == NewWindow(windowSize, slideOnGap)
    {
      this.windowSize, this.slideOnGap := windowSize, slideOnGap;
      lastContiguous, pending := 0, {};
    }

    method Classify(n: nat) returns (v: Verdict)
      ensures v == Judge(State(), n)
    {
      if n == 0 || n <= lastContiguous || n in pending {
        return IsDuplicate;
      }
      if n > lastContiguous + windowSize && !slideOnGap {
        return IsTooFar;
      }
      return IsFresh;
    }

    method Accept(n: nat) returns (taken: bool)
      modifies this
      ensures (State(), taken) == AfterAccept(old(State()), n)
    {
      if n == 0 {
        return false;
      }
      if n <= lastContiguous {
        return false;
      }
      if n == lastContiguous + 1 {
        lastContiguous := n;
        ghost var goal := Advanced(lastContiguous, pending);
        while lastContiguous + 1 in pending
          invariant goal == Advanced(lastContiguous, pending)
          decreases pending
        {
          pending := pending - {lastContiguous + 1};
          lastContiguous := lastContiguous + 1;
        }
        return true;
      }
      if n > lastContiguous + windowSize {
        if !slideOnGap {
          return false;
        }
        lastContiguous := n - 1;
        pending := {};
        lastContiguous := n;
        return true;
      }
      taken := n !in pending;
      pending := pending + {n};
    }
  }

  // ------------------------------------------------------------ what acceptance means

  lemma {:induction false} AdvancedMeans(last: nat, pending: set<nat>)
    requires forall n :: n in pending ==> n > last
    ensures var (l, p) := Advanced(last, pending);
      && last <= l && l + 1 !in p && p <= pending
      && (forall n :: n in p ==> n > l)
      && (forall n :: last < n <= l ==> n in pending)
      && (forall n :: n in pending && n !in p ==> n <= l)
    decreases pending
  {
    if last + 1 in pending { AdvancedMeans(last + 1, pending - {last + 1}); }
  }

  /** Accept takes a number exactly when it was not seen and is not refused as too far; then it is seen, and nothing is unseen. */
  lemma AcceptMeans(w: Window, n: nat)
    requires Valid(w)
    ensures var (t, taken) := AfterAccept(w, n);
      && Valid(t)
      && (taken <==> !Seen(w, n) && (w.slides || n == w.last + 1 || n <= w.last + w.size))
      && (taken ==> Seen(t, n))
      && (forall m: nat :: Seen(w, m) ==> Seen(t, m))
      && (!taken ==> t == w)
      && (!w.slides && taken ==> forall m: nat :: Seen(t, m) ==> Seen(w, m) || m == n)
      && t.size == w.size && t.slides == w.slides && w.last <= t.last
  {
    if n == w.last + 1 { AdvancedMeans(n, w.pending - {n}); assert w.pending - {n} == w.pending; }
  }

  /** Classify foretells Accept for every number, but for the next one under a strict window of size 0. */
  lemma ClassifyForetellsAccept(w: Window, n: nat)
    requires Valid(w)
    ensures (Judge(w, n) == IsFresh <==> AfterAccept(w, n).1) <==> w.size >= 1 || w.slides || n != w.last + 1
    ensures Judge(w, n) == IsDuplicate <==> n == 0 || Seen(w, n)
  {
    AcceptMeans(w, n);
  }

  // ------------------------------------------------------------ over any sequence of calls

  function Fed(w: Window, calls: seq<nat>): Window {
    if calls == [] then w else AfterAccept(Fed(w, calls[..|calls| - 1]), calls[|calls| - 1]).0
  }

  /** Whether the i-th call was answered with true. */
  predicate TakenAt(w: Window, calls: seq<nat>, i: nat)
    requires i < |calls|
  {
    AfterAccept(Fed(w, calls[..i]), calls[i]).1
  }

  lemma {:induction false} FedKeeps(w: Window, calls: seq<nat>, i: nat, m: nat)
    requires Valid(w) && i <= |calls| && Seen(Fed(w, calls[..i]), m)
    ensures Valid(Fed(w, calls)) && Seen(Fed(w, calls), m)
    decreases |calls|
  {
    FedValid(w, calls);
    if i < |calls| {
      var front := calls[..|calls| - 1];
      assert front[..i] == calls[..i];
      FedKeeps(w, front, i, m);
      AcceptMeans(Fed(w, front), calls[|calls| - 1]);
    } else {
      assert calls[..i] == calls;
    }
  }

  lemma {:induction false} FedValid(w: Window, calls: seq<nat>)
    requires Valid(w)
    ensures Valid(Fed(w, calls)) && Fed(w, calls).size == w.size && Fed(w, calls).slides == w.slides
  {
    if calls != [] {
      FedValid(w, calls[..|calls| - 1]);
      AcceptMeans(Fed(w, calls[..|calls| - 1]), calls[|calls| - 1]);
    }
  }

  /** In both modes, over any calls, a number is answered with true at most once. */
  lemma AcceptedAtMostOnce(size: nat, slides: bool, calls: seq<nat>, i: nat, j: nat)
    requires i < j < |calls| && calls[i] == calls[j]
    requires TakenAt(NewWindow(size, slides), calls, i)
    ensures !TakenAt(NewWindow(size, slides), calls, j)
  {
    var w := NewWindow(size, slides);
    FedValid(w, calls[..i]);
    AcceptMeans(Fed(w, calls[..i]), calls[i]);
    assert calls[..i + 1][..i] == calls[..i];
    assert calls[..j][..i + 1] == calls[..i + 1];
    FedKeeps(w, calls[..j], i + 1, calls[i]);
    AcceptMeans(Fed(w, calls[..j]), calls[j]);
  }

  /** The numbers answered with true so far. */
  function AcceptedSet(w: Window, calls: seq<nat>): set<nat> {
    if calls == [] then {}
    else
      var n := |calls| - 1;
      AcceptedSet(w, calls[..n]) + (if TakenAt(w, calls, n) then {calls[n]} else {})
  }

  /** Strict mode loses no number: what was accepted is exactly 1..last and the pending ones. */
  lemma {:induction false} StrictRemembersAll(size: nat, calls: seq<nat>, m: nat)
    ensures var w := NewWindow(size, false);
      m in AcceptedSet(w, calls) <==> m >= 1 && Seen(Fed(w, calls), m)
  {
    var w := NewWindow(size, false);
    if calls != [] {
      var n := |calls| - 1;
      StrictRemembersAll(size, calls[..n], m);
      FedValid(w, calls[..n]);
      AcceptMeans(Fed(w, calls[..n]), calls[n]);
    }
  }
}
