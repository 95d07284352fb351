/** A `useRef` slot holding a `setTimeout` handle, as both the carousel and the
    search box use one: `clearTimeout(ref.current)` cancels the timer whose
    handle the ref holds, `ref.current = setTimeout(...)` arms a fresh one.
    Time itself is not modelled: a pending timer fires by an explicit event. */
module Timers {
  import opened Catalog

  /** `current` is the ref's content (clearing a timer leaves the stale handle
      in the ref, as in JavaScript); `pending` maps each timer that is armed and
      has neither fired nor been cleared to the data its callback captured;
      `nextHandle` is the handle the next `setTimeout` returns. */
  datatype TimerSlot<T> = TimerSlot(current: Option<nat>, pending: map<nat, T>, nextHandle: nat)

  /** The ref as `useRef(null)` creates it. */
  function NewSlot<T>(): (s: TimerSlot<T>)
    ensures SlotValid(s) && s.pending == map[] && s.current == None
  {
    TimerSlot(None, map[], 1)
  }

  /** Only the timer the ref points at can still be pending, and every handle
      handed out so far is below `nextHandle`. */
  ghost predicate SlotValid<T>(s: TimerSlot<T>) {
    && (forall h :: h in s.pending ==> s.current == Some(h))
    && (s.current.Some? ==> s.current.value < s.nextHandle)
  }

  function Pending<T>(s: TimerSlot<T>): set<nat> {
    s.pending.Keys
  }

  /** `if (ref.current) clearTimeout(ref.current)`. */
  function Clear<T>(s: TimerSlot<T>): (r: TimerSlot<T>)
    ensures r.current == s.current && r.nextHandle == s.nextHandle
    ensures s.current.Some? ==> s.current.value !in r.pending
    ensures forall h :: h in r.pending ==> h in s.pending && r.pending[h] == s.pending[h]
    ensures forall h :: h in s.pending && s.current != Some(h) ==> h in r.pending
    ensures SlotValid(s) ==> SlotValid(r) && r.pending == map[]
  {
    match s.current
    case None => s
    case Some(h) => s.(pending := s.pending - {h})
  }

  /** `ref.current = setTimeout(callback, delay)` for a callback that captured `payload`. */
  function Arm<T>(s: TimerSlot<T>, payload: T): (r: TimerSlot<T>)
    ensures r.current == Some(s.nextHandle)
    ensures SlotValid(s) ==> s.nextHandle !in s.pending
    ensures r.pending == s.pending[s.nextHandle := payload]
    ensures r.nextHandle > s.nextHandle
    ensures SlotValid(s) && s.pending == map[] ==> SlotValid(r)
  {
    TimerSlot(Some(s.nextHandle), s.pending[s.nextHandle := payload], s.nextHandle + 1)
  }

  /** The pending timer `h` runs its callback: it is no longer pending. */
  function Fire<T>(s: TimerSlot<T>, h: nat): (r: TimerSlot<T>)
    requires h in s.pending
    ensures Pending(r) == Pending(s) - {h}
    ensures forall k :: k in r.pending ==> r.pending[k] == s.pending[k]
    ensures r.current == s.current && r.nextHandle == s.nextHandle
    ensures SlotValid(s) ==> SlotValid(r) && r.pending == map[]
  {
    s.(pending := s.pending - {h})
  }

  /** Clearing before arming is what keeps the slot to one pending timer. */
  lemma AtMostOnePending<T>(s: TimerSlot<T>)
    requires SlotValid(s)
    ensures |s.pending| <= 1
    ensures s.pending != map[] ==> s.current.Some? && s.pending.Keys == {s.current.value}
  {
    if s.pending != map[] {
      var h :| h in s.pending;
      assert s.pending.Keys == {h};
      assert |s.pending| == |s.pending.Keys|;
    }
  }

  /** Re-arming without clearing would leave two live timers: the clear is needed. */
  lemma ArmWithoutClearLeavesTwo<T>(s: TimerSlot<T>, p: T, q: T)
    requires SlotValid(s) && s.pending == map[]
    ensures |Arm(Arm(s, p), q).pending| == 2
  {
    var r := Arm(Arm(s, p), q);
    assert r.pending.Keys == {s.nextHandle, s.nextHandle + 1};
  }
}
