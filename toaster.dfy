/**
 * The toast queue of ImGuiToaster (include/ImGuiToaster.h): messages are
 * pushed at the back with an expiry time, the queue keeps at most
 * `maxToasts` of them by dropping the oldest, and each frame first drops the
 * expired toasts at the front.  The steady clock is a parameter (`now`, in
 * clock ticks), durations are given in ticks, and the mutex and the drawing
 * are not part of this model.
 */
module Toaster {
  datatype Level = Info | Good | Warning | Error

  datatype Toast = Toast(message: string, level: Level, expiresAt: int)

  /** The default Config::maxToasts. */
  const DefaultMaxToasts: nat := 8

  /** The queue after a push: the new toast at the back, and the front one dropped if the queue grew past the bound. */
  function Pushed(toasts: seq<Toast>, t: Toast, maxToasts: nat): (r: seq<Toast>)
    ensures r != [] ==> r[|r| - 1] == t
    ensures |toasts| <= maxToasts ==> |r| <= maxToasts
    ensures |toasts| < maxToasts ==> r == toasts + [t]
    ensures |toasts| + 1 > maxToasts ==> r == (toasts + [t])[1..]
  {
    var grown := toasts + [t];
    if |grown| > maxToasts then grown[1..] else grown
  }

  /**
   * The pruning at the start of Render: drop toasts from the front while the
   * front one has expired (expiresAt <= now), and stop at the first live one.
   */
  function PrunedFront(toasts: seq<Toast>, now: int): (r: seq<Toast>)
    ensures |r| <= |toasts| && r == toasts[|toasts| - |r|..]
    ensures forall k :: 0 <= k < |toasts| - |r| ==> toasts[k].expiresAt <= now
    ensures r != [] ==> r[0].expiresAt > now
  {
    if toasts == [] || toasts[0].expiresAt > now then toasts
    else PrunedFront(toasts[1..], now)
  }

  /** Pruning only looks at the front: an expired toast behind a live one stays. */
  lemma {:induction false} PruneKeepsExpiredBehindLive(a: Toast, b: Toast, now: int)
    requires a.expiresAt > now && b.expiresAt <= now
    ensures PrunedFront([a, b], now) == [a, b]
  {
  }

  class ImGuiToaster {
    const maxToasts: nat
    var toasts: seq<Toast>

    predicate Valid()
      reads this
    {
      |toasts| <= maxToasts
    }

    constructor (maxToasts: nat)
      ensures Valid() && this.maxToasts == maxToasts && toasts == []
    {
      this.maxToasts := maxToasts;
      toasts := [];
    }

    /** Push: a toast expiring `duration` ticks after `now` is queued at the back. */
    method Push(level: Level, message: string, duration: int, now: int)
      modifies this
      ensures toasts == Pushed(old(toasts), Toast(message, level, now + duration), maxToasts)
      ensures old(Valid()) ==> Valid()
    {
      var t := Toast(message, level, now + duration);
      toasts := toasts + [t];
      if |toasts| > maxToasts {
        toasts := toasts[1..];
      }
    }

    method Info(message: string, duration: int, now: int)
      modifies this
      ensures toasts == Pushed(old(toasts), Toast(message, Level.Info, now + duration), maxToasts)
    {
      Push(Level.Info, message, duration, now);
    }

    method Good(message: string, duration: int, now: int)
      modifies this
      ensures toasts == Pushed(old(toasts), Toast(message, Level.Good, now + duration), maxToasts)
    {
      Push(Level.Good, message, duration, now);
    }

    method Warn(message: string, duration: int, now: int)
      modifies this
      ensures toasts == Pushed(old(toasts), Toast(message, Level.Warning, now + duration), maxToasts)
    {
      Push(Level.Warning, message, duration, now);
    }

    method Error(message: string, duration: int, now: int)
      modifies this
      ensures toasts == Pushed(old(toasts), Toast(message, Level.Error, now + duration), maxToasts)
    {
      Push(Level.Error, message, duration, now);
    }

    method Clear()
      modifies this
      ensures toasts == [] && Valid()
    {
      toasts := [];
    }

    /**
     * The copy-and-prune step of Render: pop expired toasts from the front,
     * then hand back a copy of what is left for drawing.
     */
    method PruneForRender(now: int) returns (local: seq<Toast>)
      modifies this
      ensures toasts == PrunedFront(old(toasts), now) && local == toasts
      ensures old(Valid()) ==> Valid()
    {
      while toasts != [] && toasts[0].expiresAt <= now
        invariant PrunedFront(toasts, now) == PrunedFront(old(toasts), now)
        decreases |toasts|
      {
        toasts := toasts[1..];
      }
      local := toasts;
    }
  }
}
