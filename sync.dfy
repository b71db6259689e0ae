/** The value-passing condition of alicebot/utils.py: an asyncio lock plus a FIFO
    queue of futures, where `notify` hands a value to the waiters it wakes.
    Suspension is modelled by splitting `wait` into the step that enqueues the
    caller (WaitBegin) and the step that resumes it (WaitEnd). */
module Sync {
  import opened Wrappers

  /** The RuntimeError raised on misuse of the lock or the condition. */
  datatype UsageError = RuntimeError(message: string)

  const WaitUnlocked: string := "cannot wait on un-acquired lock"
  const NotifyUnlocked: string := "cannot notify on un-acquired lock"
  const ReleaseUnlocked: string := "Lock is not acquired."

  /** One queued waiter: the asyncio future created by one call of `wait()`,
      identified by the ticket it was created with, and either not done
      (`None`) or done with the value handed to it. */
  datatype Waiter<T> = Waiter(ticket: nat, result: Option<T>)

  /** Number of futures in `s` that are not done yet. */
  function Pending<T>(s: seq<Option<T>>): (k: nat)
    ensures k <= |s|
  {
    if s == [] then 0 else (if s[0].None? then 1 else 0) + Pending(s[1..])
  }

  function Min(a: int, b: int): (m: int) { if a <= b then a else b }
  function Max(a: int, b: int): (m: int) { if a <= b then b else a }

  /** The queue's results after `notify(v, n)`: walking head to tail with a budget
      of `n`, each not-done future is given `v` and uses up one unit of budget;
      done futures are passed over without using budget. */
  function Notified<T>(s: seq<Option<T>>, v: T, n: int): (r: seq<Option<T>>)
    ensures |r| == |s|
  {
    if s == [] || n <= 0 then s
    else if s[0].None? then [Some(v)] + Notified(s[1..], v, n - 1)
    else [s[0]] + Notified(s[1..], v, n)
  }

  /** Position by position: a done future keeps its result; a pending one is given
      `v` exactly when fewer than `n` pending futures stand before it. */
  lemma {:induction false} NotifiedAt<T>(s: seq<Option<T>>, v: T, n: int, i: int)
    requires 0 <= i < |s|
    ensures Notified(s, v, n)[i] ==
      if s[i].Some? then s[i]
      else if Pending(s[..i]) < n then Some(v)
      else None
  {
    if n <= 0 {
    } else if i == 0 {
      assert s[..0] == [];
    } else {
      var n' := if s[0].None? then n - 1 else n;
      NotifiedAt(s[1..], v, n', i - 1);
      assert s[..i][1..] == s[1..][..i - 1];
      assert s[..i][0] == s[0];
    }
  }

  /** `notify` never adds, removes or reorders queue entries and leaves done
      futures alone; with `n <= 0` it changes nothing. */
  lemma NotifiedKeepsDone<T>(s: seq<Option<T>>, v: T, n: int)
    ensures |Notified(s, v, n)| == |s|
    ensures forall i :: 0 <= i < |s| && s[i].Some? ==> Notified(s, v, n)[i] == s[i]
    ensures n <= 0 ==> Notified(s, v, n) == s
  {
    forall i | 0 <= i < |s| && s[i].Some?
      ensures Notified(s, v, n)[i] == s[i]
    {
      NotifiedAt(s, v, n, i);
    }
  }

  /** Exactly min(n, pending) futures are fulfilled (none when n <= 0). */
  lemma {:induction false} NotifiedCount<T>(s: seq<Option<T>>, v: T, n: int)
    ensures Pending(Notified(s, v, n)) == Pending(s) - Min(Max(n, 0), Pending(s))
  {
    if s == [] || n <= 0 {
    } else if s[0].None? {
      NotifiedCount(s[1..], v, n - 1);
      assert ([Some(v)] + Notified(s[1..], v, n - 1))[1..] == Notified(s[1..], v, n - 1);
    } else {
      NotifiedCount(s[1..], v, n);
      assert ([s[0]] + Notified(s[1..], v, n))[1..] == Notified(s[1..], v, n);
    }
  }

  /** `notify_all(v)` uses the queue length as budget, so every pending future
      receives `v`, done ones keep their result, and nothing is pending after. */
  lemma NotifyAllFulfilsEvery<T>(s: seq<Option<T>>, v: T)
    ensures |Notified(s, v, |s|)| == |s|
    ensures forall i :: 0 <= i < |s| ==>
      Notified(s, v, |s|)[i] == if s[i].None? then Some(v) else s[i]
    ensures Pending(Notified(s, v, |s|)) == 0
  {
    forall i | 0 <= i < |s|
      ensures Notified(s, v, |s|)[i] == if s[i].None? then Some(v) else s[i]
    {
      NotifiedAt(s, v, |s|, i);
      assert Pending(s[..i]) <= i;
    }
    NotifiedCount(s, v, |s|);
  }

  /** One step of the notify loop: the entry at `i` and the budget left for the rest. */
  lemma NotifiedStep<T>(s: seq<Option<T>>, v: T, n: int, i: int, budget: int)
    requires 0 <= i < |s| && budget > 0
    requires Notified(s, v, n)[i..] == Notified(s[i..], v, budget)
    ensures Notified(s, v, n)[i] == (if s[i].None? then Some(v) else s[i])
    ensures Notified(s, v, n)[i + 1..] ==
      Notified(s[i + 1..], v, if s[i].None? then budget - 1 else budget)
  {
    assert s[i..][0] == s[i];
    assert s[i..][1..] == s[i + 1..];
    assert Notified(s, v, n)[i + 1..] == Notified(s, v, n)[i..][1..];
  }

  /** Position of the first occurrence of `x` in `s`. */
  function IndexOf<X(==)>(s: seq<X>, x: X): (k: nat)
    requires x in s
    ensures k < |s| && s[k] == x
    ensures forall j :: 0 <= j < k ==> s[j] != x
  {
    if s[0] == x then 0 else 1 + IndexOf(s[1..], x)
  }

  /** The results of the queued futures, head first. */
  function ResultsOf<T>(ws: seq<Waiter<T>>): (r: seq<Option<T>>)
    ensures |r| == |ws|
    ensures forall k :: 0 <= k < |ws| ==> r[k] == ws[k].result
  {
    if ws == [] then [] else [ws[0].result] + ResultsOf(ws[1..])
  }

  /** The tickets of the queued futures, head first. */
  function TicketsOf<T>(ws: seq<Waiter<T>>): (r: seq<nat>)
    ensures |r| == |ws|
    ensures forall k :: 0 <= k < |ws| ==> r[k] == ws[k].ticket
  {
    if ws == [] then [] else [ws[0].ticket] + TicketsOf(ws[1..])
  }

  /** Strictly increasing, hence without repetition. */
  ghost predicate Ascending(t: seq<nat>)
  {
    forall i, j :: 0 <= i < j < |t| ==> t[i] < t[j]
  }

  /** Appending a ticket above all others keeps a sequence ascending. */
  lemma AscendingAppend(t: seq<nat>, x: nat)
    requires Ascending(t) && forall y :: y in t ==> y < x
    ensures Ascending(t + [x])
  {
    var u := t + [x];
    forall i, j | 0 <= i < j < |u| ensures u[i] < u[j] {
      if j < |t| { assert u[i] == t[i] && u[j] == t[j]; }
      else { assert u[i] == t[i] && t[i] in t; }
    }
  }

  /** Removing one position keeps a sequence ascending and drops that value
      from it altogether. */
  lemma AscendingRemove(t: seq<nat>, k: nat)
    requires Ascending(t) && k < |t|
    ensures Ascending(t[..k] + t[k + 1..])
    ensures t[k] !in t[..k] + t[k + 1..]
    ensures forall y :: y in t[..k] + t[k + 1..] ==> y in t
  {
    var u := t[..k] + t[k + 1..];
    assert forall i :: 0 <= i < |u| ==> u[i] == t[if i < k then i else i + 1];
    forall y | y in u ensures y in t {
      var i :| 0 <= i < |u| && u[i] == y;
      assert t[if i < k then i else i + 1] == y;
    }
  }

  /** Handing a value to one waiter leaves every ticket where it was. */
  lemma FulfilKeepsTickets<T>(ws: seq<Waiter<T>>, i: nat, v: T)
    requires i < |ws|
    ensures TicketsOf(ws[i := ws[i].(result := Some(v))]) == TicketsOf(ws)
  {
    assert forall k :: 0 <= k < |ws| ==> ws[i := ws[i].(result := Some(v))][k].ticket == ws[k].ticket;
  }

  /** Where the notify loop stopped: positions before `i` hold `goal`, the rest
      still hold `s0`, and from `i` on `goal` agrees with `s0`. */
  lemma ResultsOfIs<T>(ws: seq<Waiter<T>>, goal: seq<Option<T>>, i: nat, s0: seq<Option<T>>)
    requires i <= |ws| == |goal| == |s0|
    requires forall j :: 0 <= j < i ==> ws[j].result == goal[j]
    requires forall j :: i <= j < |ws| ==> ws[j].result == s0[j]
    requires goal[i..] == s0[i..]
    ensures ResultsOf(ws) == goal
  {
    forall j | i <= j < |ws| ensures ws[j].result == goal[j] {
      assert goal[j] == goal[i..][j - i];
    }
  }

  /** The loop of `notify(value, n)` over the queue: walks it head to tail,
      stops once `n` futures have been given `value`, and skips done ones. */
  method NotifyQueue<T>(ws: seq<Waiter<T>>, value: T, n: int) returns (queue: seq<Waiter<T>>)
    ensures TicketsOf(queue) == TicketsOf(ws)
    ensures ResultsOf(queue) == Notified(ResultsOf(ws), value, n)
  {
    ghost var s0 := ResultsOf(ws);
    ghost var goal := Notified(s0, value, n);
    queue := ws;
    var idx := 0;
    var i := 0;
    while i < |queue|
      invariant 0 <= i <= |queue| == |s0| && idx <= i
      invariant TicketsOf(queue) == TicketsOf(ws)
      invariant forall j :: 0 <= j < i ==> queue[j].result == goal[j]
      invariant forall j :: i <= j < |queue| ==> queue[j].result == s0[j]
      invariant goal[i..] == Notified(s0[i..], value, n - idx)
    {
      if idx >= n {
        break;
      }
      NotifiedStep(s0, value, n, i, n - idx);
      if queue[i].result.None? {
        idx := idx + 1;
        FulfilKeepsTickets(queue, i, value);
        queue := queue[i := queue[i].(result := Some(value))];
      }
      i := i + 1;
    }
    ResultsOfIs(queue, goal, i, s0);
  }

  /** `Condition` of alicebot/utils.py with the wrapped `asyncio.Lock` reduced to
      its `locked` flag and `_waiters` kept as a sequence of waiter slots. */
  class Condition<T> {
    var locked: bool
    var waiters: seq<Waiter<T>>
    var nextTicket: nat

    /** Tickets increase from head to tail and are all below `nextTicket`, so
        every future is queued at most once and a new one is always new. */
    ghost predicate Valid()
      reads this
    {
      Ascending(Tickets()) && forall t :: t in Tickets() ==> t < nextTicket
    }

    /** The state of the queued futures, head first. */
    function Results(): (r: seq<Option<T>>)
      reads this
    {
      ResultsOf(waiters)
    }

    /** Which futures are queued, head first. */
    function Tickets(): (t: seq<nat>)
      reads this
    {
      TicketsOf(waiters)
    }

    constructor ()
      ensures Valid() && !locked && waiters == []
    {
      locked := false;
      waiters := [];
      nextTicket := 0;
    }

    /** `acquire()`: takes the lock when it is free; on a held lock the caller
        stays suspended (`acquired` is false) and nothing changes. */
    method Acquire() returns (acquired: bool)
      requires Valid()
      modifies this
      ensures Valid()
      ensures acquired == !old(locked)
      ensures locked && waiters == old(waiters) && nextTicket == old(nextTicket)
    {
      acquired := !locked;
      locked := true;
    }

    /** `release()`: frees a held lock; on a free lock it raises RuntimeError. */
    method Release() returns (r: Outcome<UsageError>)
      requires Valid()
      modifies this
      ensures Valid()
      ensures r == if old(locked) then Pass else Fail(RuntimeError(ReleaseUnlocked))
      ensures !locked && waiters == old(waiters) && nextTicket == old(nextTicket)
    {
      if !locked {
        return Fail(RuntimeError(ReleaseUnlocked));
      }
      locked := false;
      r := Pass;
    }

    /** First half of `wait()`: refuses without the lock; otherwise releases the
        lock and appends one new, not-done future at the tail. The returned
        ticket is the caller's handle on its future. */
    method WaitBegin() returns (r: Result<nat, UsageError>)
      requires Valid()
      modifies this
      ensures Valid()
      ensures !old(locked) ==>
        && r == Err(RuntimeError(WaitUnlocked))
        && locked == old(locked) && waiters == old(waiters) && nextTicket == old(nextTicket)
      ensures old(locked) ==>
        && r.Ok? && r.value !in old(Tickets())
        && !locked && waiters == old(waiters) + [Waiter(r.value, None)]
    {
      if !locked {
        return Err(RuntimeError(WaitUnlocked));
      }
      locked := false;
      var ticket := nextTicket;
      nextTicket := nextTicket + 1;
      AscendingAppend(old(Tickets()), ticket);
      waiters := waiters + [Waiter(ticket, None)];
      assert Tickets() == old(Tickets()) + [ticket];
      r := Ok(ticket);
    }

    /** Second half of `wait()`: the caller resumes only once its future is done
        and the lock is free (otherwise it stays suspended and nothing changes);
        it then removes its own future, and no other, from the queue, holds the
        lock again and returns the future's value. */
    method WaitEnd(ticket: nat) returns (r: Option<T>)
      requires Valid() && ticket in Tickets()
      modifies this
      ensures Valid() && nextTicket == old(nextTicket)
      ensures var k := IndexOf(old(Tickets()), ticket);
        && (r.Some? <==> old(waiters)[k].result.Some? && !old(locked))
        && (r.None? ==> locked == old(locked) && waiters == old(waiters))
        && (r.Some? ==>
             && r == old(waiters)[k].result
             && locked
             && waiters == old(waiters)[..k] + old(waiters)[k + 1..]
             && ticket !in Tickets())
    {
      var k := IndexOf(Tickets(), ticket);
      if waiters[k].result.None? || locked {
        return None;
      }
      r := waiters[k].result;
      ghost var t0 := Tickets();
      AscendingRemove(t0, k);
      waiters := waiters[..k] + waiters[k + 1..];
      locked := true;
      assert Tickets() == t0[..k] + t0[k + 1..];
      assert forall t :: t in Tickets() ==> t in t0;
    }

    /** `notify(value, n)`: refuses without the lock; otherwise gives `value` to
        the first `n` not-done futures in queue order, leaving the queue's
        membership and order, and every done future, as they were. */
    method Notify(value: T, n: int) returns (r: Outcome<UsageError>)
      requires Valid()
      modifies this
      ensures Valid()
      ensures locked == old(locked) && nextTicket == old(nextTicket)
      ensures r == if locked then Pass else Fail(RuntimeError(NotifyUnlocked))
      ensures Tickets() == old(Tickets())
      ensures Results() == if locked then Notified(old(Results()), value, n) else old(Results())
    {
      if !locked {
        return Fail(RuntimeError(NotifyUnlocked));
      }
      waiters := NotifyQueue(waiters, value, n);
      r := Pass;
    }

    /** `notify_all(value)`: `notify` with the queue length as budget, so every
        future still pending receives `value` and done ones keep theirs. */
    method NotifyAll(value: T) returns (r: Outcome<UsageError>)
      requires Valid()
      modifies this
      ensures Valid()
      ensures locked == old(locked) && nextTicket == old(nextTicket)
      ensures r == if locked then Pass else Fail(RuntimeError(NotifyUnlocked))
      ensures Tickets() == old(Tickets())
      ensures |Results()| == |old(Results())|
      ensures forall i :: 0 <= i < |Results()| ==>
        Results()[i] == if locked && old(Results())[i].None? then Some(value) else old(Results())[i]
      ensures locked ==> Pending(Results()) == 0
    {
      NotifyAllFulfilsEvery(Results(), value);
      r := Notify(value, |waiters|);
    }
  }

  /** A waiter and a notifier in turn: the waiter takes the lock and waits; the
      notifier takes the lock, notifies `value` and releases; the waiter then
      resumes with exactly `value` and holds the lock again. */
  method HandOff<T>(value: T) returns (got: T, relocked: bool)
    ensures got == value && relocked
  {
    var c := new Condition<T>();
    var ok := c.Acquire();
    var w := c.WaitBegin();
    var ticket := w.value;
    ok := c.Acquire();
    var n := c.Notify(value, 1);
    assert c.Results() == [Some(value)];
    var rel := c.Release();
    var r := c.WaitEnd(ticket);
    got := r.value;
    relocked := c.locked;
  }
}
