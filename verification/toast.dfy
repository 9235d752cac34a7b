/**
 * The toast queue: notifications appended in order, removed by id either explicitly or
 * when their timer fires. Ids are the creation time in milliseconds, as decimal text.
 */
module Toast {
  import opened JsText
  import Seqs

  datatype ToastType = Success | Error | Info

  datatype ToastMessage = ToastMessage(id: string, message: string, kind: ToastType, duration: int)

  /** A scheduled auto-removal: after `delay` milliseconds, toasts with `id` go. */
  datatype Timer = Timer(id: string, delay: int)

  const DefaultDuration := 5000

  /** `Date.now().toString()`. */
  function IdFor(now: nat): (id: string)
    ensures |id| >= 1 && forall i :: 0 <= i < |id| ==> IsDigit(id[i])
  {
    NatToString(now)
  }

  /** Toasts created in the same millisecond share an id; different milliseconds give different ids. */
  lemma IdForSameIffSameTime(now1: nat, now2: nat)
    ensures IdFor(now1) == IdFor(now2) <==> now1 == now2
  {
    if IdFor(now1) == IdFor(now2) {
      NatToStringInjective(now1, now2);
    }
  }

  function KeepOthers(id: string): ToastMessage -> bool {
    (t: ToastMessage) => t.id != id
  }

  /** `toasts.filter(t => t.id !== id)`. */
  function Without(toasts: seq<ToastMessage>, id: string): (r: seq<ToastMessage>)
    ensures forall t: ToastMessage :: t in r <==> t in toasts && t.id != id
    ensures Seqs.SubsequenceOf(r, toasts)
    ensures forall t: ToastMessage :: t.id != id ==> multiset(r)[t] == multiset(toasts)[t]
  {
    Seqs.FilterIsSubsequence(toasts, KeepOthers(id));
    Seqs.FilterMultiset(toasts, KeepOthers(id));
    Seqs.Filter(toasts, KeepOthers(id))
  }

  /** Removing an id twice is removing it once. */
  lemma WithoutIdempotent(toasts: seq<ToastMessage>, id: string)
    ensures Without(Without(toasts, id), id) == Without(toasts, id)
  {
    Seqs.FilterIdempotent(toasts, KeepOthers(id));
  }

  /** Removing an id that no toast carries changes nothing. */
  lemma WithoutAbsent(toasts: seq<ToastMessage>, id: string)
    requires forall i :: 0 <= i < |toasts| ==> toasts[i].id != id
    ensures Without(toasts, id) == toasts
  {
    Seqs.FilterKeepsAll(toasts, KeepOthers(id));
  }

  /** Two toasts shown in the same millisecond are removed together by either one's timer. */
  lemma SameTimeToastsRemovedTogether(toasts: seq<ToastMessage>, a: ToastMessage, b: ToastMessage, now: nat)
    requires a in toasts && b in toasts && a.id == IdFor(now) && b.id == IdFor(now)
    ensures a !in Without(toasts, IdFor(now)) && b !in Without(toasts, IdFor(now))
  {
  }

  class ToastStore {
    var toasts: seq<ToastMessage>
    /** Pending timeouts, in the order they were scheduled. */
    var timers: seq<Timer>

    constructor ()
      ensures toasts == [] && timers == []
    {
      toasts, timers := [], [];
    }

    /**
     * `show`: appends one toast stamped with the clock and returns its id; a positive
     * duration schedules its removal.
     */
    method Show(now: nat, message: string, kind: ToastType := Info, duration: int := DefaultDuration) returns (id: string)
      modifies this
      ensures id == IdFor(now)
      ensures toasts == old(toasts) + [ToastMessage(id, message, kind, duration)]
      ensures timers == old(timers) + if duration > 0 then [Timer(id, duration)] else []
    {
      id := IdFor(now);
      var toast := ToastMessage(id, message, kind, duration);
      toasts := toasts + [toast];
      if duration > 0 {
        timers := timers + [Timer(id, duration)];
      }
    }

    method ShowSuccess(now: nat, message: string, duration: int := DefaultDuration) returns (id: string)
      modifies this
      ensures id == IdFor(now)
      ensures toasts == old(toasts) + [ToastMessage(id, message, Success, duration)]
      ensures timers == old(timers) + if duration > 0 then [Timer(id, duration)] else []
    {
      id := Show(now, message, Success, duration);
    }

    method ShowError(now: nat, message: string, duration: int := DefaultDuration) returns (id: string)
      modifies this
      ensures id == IdFor(now)
      ensures toasts == old(toasts) + [ToastMessage(id, message, Error, duration)]
      ensures timers == old(timers) + if duration > 0 then [Timer(id, duration)] else []
    {
      id := Show(now, message, Error, duration);
    }

    method ShowInfo(now: nat, message: string, duration: int := DefaultDuration) returns (id: string)
      modifies this
      ensures id == IdFor(now)
      ensures toasts == old(toasts) + [ToastMessage(id, message, Info, duration)]
      ensures timers == old(timers) + if duration > 0 then [Timer(id, duration)] else []
    {
      id := Show(now, message, Info, duration);
    }

    /** A pending timer fires: it is consumed and removes the toasts with its id. */
    method FireTimer(k: nat)
      requires k < |timers|
      modifies this
      ensures timers == old(timers[..k] + timers[k + 1..])
      ensures toasts == Without(old(toasts), old(timers[k].id))
    {
      var id := timers[k].id;
      timers := timers[..k] + timers[k + 1..];
      toasts := Without(toasts, id);
    }

    /** `remove`: deletes every toast with the id, keeping the others in order. */
    method Remove(id: string)
      modifies this`toasts
      ensures toasts == Without(old(toasts), id)
    {
      toasts := Without(toasts, id);
    }

    /** `clear`. */
    method Clear()
      modifies this`toasts
      ensures toasts == []
    {
      toasts := [];
    }
  }
}
