/**
 * The observable effects of one run of sign.cpp after the select: taking and
 * releasing the local `pthread_mutex_t`, issuing a query on the pooled
 * connection, and printing a line. The mutex is reduced to a held/free flag.
 */
module Effects {
  import opened Wrappers

  datatype Effect =
    | Lock                 // pthread_mutex_lock(&lock)
    | Unlock               // pthread_mutex_unlock(&lock)
    | Query(sql: string)   // mysql_query(mysql, sql)
    | Print(line: string)  // printf(line)

  datatype MutexState = Free | Held

  /**
   * One effect applied to the mutex. Locking a held mutex is a deadlock (the
   * default mutex is not reentrant and only one thread runs here) and
   * unlocking a free one is a misuse; both end the replay with `None`.
   */
  function MutexStep(s: MutexState, e: Effect): Option<MutexState> {
    match e
    case Lock => if s == Free then Some(Held) else None
    case Unlock => if s == Held then Some(Free) else None
    case _ => Some(s)
  }

  /** The mutex state after a trace, or `None` if the trace deadlocks or misuses it. */
  function Replay(s: MutexState, trace: seq<Effect>): Option<MutexState>
    decreases |trace|
  {
    if trace == [] then Some(s)
    else
      match MutexStep(s, trace[0])
      case None => None
      case Some(s') => Replay(s', trace[1..])
  }

  /** Every query in the trace is issued while the mutex is held. */
  predicate Guarded(s: MutexState, trace: seq<Effect>)
    decreases |trace|
  {
    if trace == [] then true
    else
      && (trace[0].Query? ==> s == Held)
      && match MutexStep(s, trace[0])
         case None => false
         case Some(s') => Guarded(s', trace[1..])
  }

  /** Lock discipline: starting free, never misused, every query under the lock, free at the end. */
  predicate Disciplined(trace: seq<Effect>) {
    Replay(Free, trace) == Some(Free) && Guarded(Free, trace)
  }

  /** The lines printed, in order. */
  function Printed(trace: seq<Effect>): seq<string>
    decreases |trace|
  {
    if trace == [] then []
    else (if trace[0].Print? then [trace[0].line] else []) + Printed(trace[1..])
  }

  /** The queries issued, in order. */
  function Queries(trace: seq<Effect>): seq<string>
    decreases |trace|
  {
    if trace == [] then []
    else (if trace[0].Query? then [trace[0].sql] else []) + Queries(trace[1..])
  }

  /** Number of lock operations. */
  function LockCount(trace: seq<Effect>): (n: nat)
    ensures n <= |trace|
    decreases |trace|
  {
    if trace == [] then 0 else (if trace[0].Lock? then 1 else 0) + LockCount(trace[1..])
  }

  /** Number of unlock operations. */
  function UnlockCount(trace: seq<Effect>): (n: nat)
    ensures n <= |trace|
    decreases |trace|
  {
    if trace == [] then 0 else (if trace[0].Unlock? then 1 else 0) + UnlockCount(trace[1..])
  }

  /**
   * The observations distribute over concatenation: what a trace prints,
   * queries, locks and unlocks is what its two halves do, in order.
   */
  lemma {:induction false} PrintedAppend(a: seq<Effect>, b: seq<Effect>)
    ensures Printed(a + b) == Printed(a) + Printed(b)
    decreases |a|
  {
    if a == [] {
      assert a + b == b;
    } else {
      assert (a + b)[0] == a[0];
      assert (a + b)[1..] == a[1..] + b;
      PrintedAppend(a[1..], b);
    }
  }

  lemma {:induction false} QueriesAppend(a: seq<Effect>, b: seq<Effect>)
    ensures Queries(a + b) == Queries(a) + Queries(b)
    decreases |a|
  {
    if a == [] {
      assert a + b == b;
    } else {
      assert (a + b)[0] == a[0];
      assert (a + b)[1..] == a[1..] + b;
      QueriesAppend(a[1..], b);
    }
  }

  lemma {:induction false} LockCountAppend(a: seq<Effect>, b: seq<Effect>)
    ensures LockCount(a + b) == LockCount(a) + LockCount(b)
    decreases |a|
  {
    if a == [] {
      assert a + b == b;
    } else {
      assert (a + b)[0] == a[0];
      assert (a + b)[1..] == a[1..] + b;
      LockCountAppend(a[1..], b);
    }
  }

  lemma {:induction false} UnlockCountAppend(a: seq<Effect>, b: seq<Effect>)
    ensures UnlockCount(a + b) == UnlockCount(a) + UnlockCount(b)
    decreases |a|
  {
    if a == [] {
      assert a + b == b;
    } else {
      assert (a + b)[0] == a[0];
      assert (a + b)[1..] == a[1..] + b;
      UnlockCountAppend(a[1..], b);
    }
  }

  /**
   * A trace that replays from a state to a state balances its locks and
   * unlocks: starting and ending free means exactly as many of each.
   */
  lemma {:induction false} ReplayBalances(s: MutexState, trace: seq<Effect>, t: MutexState)
    requires Replay(s, trace) == Some(t)
    ensures LockCount(trace) + (if s == Held then 1 else 0) == UnlockCount(trace) + (if t == Held then 1 else 0)
    decreases |trace|
  {
    if trace != [] {
      var s' := MutexStep(s, trace[0]).value;
      ReplayBalances(s', trace[1..], t);
    }
  }

  /** The trace shape sign.cpp produces around its insert is disciplined. */
  lemma {:induction false} CriticalSectionDisciplined(sql: string, tail: seq<Effect>)
    requires forall i | 0 <= i < |tail| :: tail[i].Print?
    ensures Disciplined([Lock, Query(sql), Unlock] + tail)
  {
    PrintsOnlyDisciplined(tail);
    var t := [Lock, Query(sql), Unlock] + tail;
    assert t[1..] == [Query(sql), Unlock] + tail;
    assert t[1..][1..] == [Unlock] + tail;
    assert t[1..][1..][1..] == tail;
    assert Replay(Held, t[1..][1..]) == Some(Free);
    assert Guarded(Held, t[1..][1..]);
    assert Replay(Held, t[1..]) == Some(Free);
    assert Guarded(Held, t[1..]);
  }

  /** Prints alone leave the mutex as it was and contain no query. */
  lemma {:induction false} PrintsOnlyDisciplined(tail: seq<Effect>)
    requires forall i | 0 <= i < |tail| :: tail[i].Print?
    ensures Disciplined(tail)
    ensures Replay(Free, tail) == Some(Free) && Guarded(Free, tail)
    decreases |tail|
  {
    if tail != [] {
      PrintsOnlyDisciplined(tail[1..]);
    }
  }
}
