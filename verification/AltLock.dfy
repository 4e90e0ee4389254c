/** The alternating lock (utils/altlocker.go): many threads on the a side, or many on the b side. */
module AltLock {
  import opened Basics

  type Thread = nat

  /** Where a thread is.  On the a side: waiting for the mutex to lock, about to look at the counter,
      waiting for the b lock, having it, having counted itself, holding the a side; then waiting for
      the mutex to unlock, having it, having uncounted itself, about to release the mutex.  On the b
      side: waiting to read, reading. */
  datatype Place =
    | Idle
    | LockWait | Locking | BWait | GotB | Counted | Holding
    | UnlockWait | Unlocking | Uncounted | Releasing
    | ReadWait | Reading

  /** `writer` tells that the b lock is held for writing, `pending` that a writer waits for it. */
  datatype State = State(at: map<Thread, Place>, mutex: Option<Thread>, counter: int, writer: bool, pending: bool)

  predicate Start(s: State) {
    (forall t :: t in s.at ==> s.at[t].Idle?) && s.mutex == None && s.counter == 0 && !s.writer && !s.pending
  }

  predicate AnyReader(s: State) {
    exists t :: t in s.at && s.at[t].Reading?
  }

  /** Whether a thread can go on from where it is. */
  predicate Enabled(s: State, t: Thread) {
    t in s.at && match s.at[t]
      case LockWait => s.mutex.None?
      case UnlockWait => s.mutex.None?
      case BWait => !s.writer && !AnyReader(s)
      case ReadWait => !s.writer && !s.pending
      case _ => true
  }

  /** A thread's next step; an idle one chooses a side. */
  function Do(s: State, t: Thread, asReader: bool): State
    requires t in s.at
  {
    match s.at[t]
    case Idle => s.(at := s.at[t := if asReader then ReadWait else LockWait])
    case LockWait => s.(at := s.at[t := Locking], mutex := Some(t))
    case Locking =>
      if s.counter == 0 then s.(at := s.at[t := BWait], pending := true)
      else s.(at := s.at[t := Counted], counter := s.counter + 1)
    case BWait => s.(at := s.at[t := GotB], writer := true, pending := false)
    case GotB => s.(at := s.at[t := Counted], counter := s.counter + 1)
    case Counted => s.(at := s.at[t := Holding], mutex := None)
    case Holding => s.(at := s.at[t := UnlockWait])
    case UnlockWait => s.(at := s.at[t := Unlocking], mutex := Some(t))
    case Unlocking => s.(at := s.at[t := Uncounted], counter := s.counter - 1)
    case Uncounted => s.(at := s.at[t := Releasing], writer := s.writer && s.counter != 0)
    case Releasing => s.(at := s.at[t := Idle], mutex := None)
    case ReadWait => s.(at := s.at[t := Reading])
    case Reading => s.(at := s.at[t := Idle])
  }

  predicate HasMutex(p: Place) {
    p.Locking? || p.BWait? || p.GotB? || p.Counted? || p.Unlocking? || p.Uncounted? || p.Releasing?
  }

  predicate IsCounted(p: Place) {
    p.Counted? || p.Holding? || p.UnlockWait? || p.Unlocking?
  }

  function CountedThreads(at: map<Thread, Place>): set<Thread> {
    set t | t in at && IsCounted(at[t])
  }

  function HolderAt(s: State): Place {
    if s.mutex.Some? && s.mutex.value in s.at then s.at[s.mutex.value] else Idle
  }

  /** Exactly the thread at a place within a critical section has the mutex. */
  ghost predicate MutexInv(s: State) {
    && (s.mutex.Some? ==> s.mutex.value in s.at)
    && (forall t :: t in s.at ==> (HasMutex(s.at[t]) <==> s.mutex == Some(t)))
  }

  ghost predicate Inv(s: State) {
    && MutexInv(s)
    && s.counter == |CountedThreads(s.at)|
    && (HolderAt(s).BWait? || HolderAt(s).GotB? ==> s.counter == 0)
    // The b lock is held exactly while threads are counted, just before the first is and just after
    // the last was.
    && (s.writer <==> s.counter > 0 || HolderAt(s).GotB? || HolderAt(s).Uncounted?)
    && (s.pending <==> HolderAt(s).BWait?)
    && (AnyReader(s) ==> !s.writer)
  }

  lemma CountMoves(at: map<Thread, Place>, t: Thread, p: Place)
    requires t in at
    ensures |CountedThreads(at[t := p])|
         == |CountedThreads(at)| - (if IsCounted(at[t]) then 1 else 0) + (if IsCounted(p) then 1 else 0)
  {
    var rest := CountedThreads(at) - {t};
    assert CountedThreads(at[t := p]) == if IsCounted(p) then rest + {t} else rest;
    assert CountedThreads(at) == if IsCounted(at[t]) then rest + {t} else rest;
  }

  lemma ReadersAfter(s: State, u: State, t: Thread)
    requires t in s.at && t in u.at && u.at == s.at[t := u.at[t]]
    ensures u.at[t].Reading? ==> AnyReader(u)
    ensures AnyReader(u) ==> AnyReader(s) || u.at[t].Reading?
  {
    if AnyReader(u) && !u.at[t].Reading? {
      var r :| r in u.at && u.at[r].Reading?;
      assert s.at[r].Reading?;
    }
  }

  lemma StepKeepsInv(s: State, t: Thread, asReader: bool)
    requires Inv(s) && Enabled(s, t)
    ensures Inv(Do(s, t, asReader))
  {
    var u := Do(s, t, asReader);
    CountMoves(s.at, t, u.at[t]);
    ReadersAfter(s, u, t);
    StepMutex(s, t, asReader);
    if s.at[t].Unlocking? || s.at[t].Counted? {
      assert t in CountedThreads(s.at);
    }
    hide CountedThreads, AnyReader, MutexInv, HolderAt;
  }

  lemma StepMutex(s: State, t: Thread, asReader: bool)
    requires MutexInv(s) && Enabled(s, t)
    ensures var u := Do(s, t, asReader);
      && MutexInv(u)
      && (s.mutex == Some(t) <==> HasMutex(s.at[t])) && (u.mutex == Some(t) <==> HasMutex(u.at[t]))
      && (s.mutex == Some(t) ==> HolderAt(s) == s.at[t])
      && HolderAt(u) == (if u.mutex == Some(t) then u.at[t] else if s.mutex == Some(t) then Idle else HolderAt(s))
  {
  }

  function After(s: State, run: seq<(Thread, bool)>): State
    requires Possible(s, run)
    decreases |run|
  {
    if run == [] then s else After(Do(s, run[0].0, run[0].1), run[1..])
  }

  predicate Possible(s: State, run: seq<(Thread, bool)>)
    decreases |run|
  {
    run == [] || (Enabled(s, run[0].0) && Possible(Do(s, run[0].0, run[0].1), run[1..]))
  }

  lemma {:induction false} RunKeepsInv(s: State, run: seq<(Thread, bool)>)
    requires Inv(s) && Possible(s, run)
    ensures Inv(After(s, run))
    decreases |run|
  {
    if run != [] {
      StepKeepsInv(s, run[0].0, run[0].1);
      RunKeepsInv(Do(s, run[0].0, run[0].1), run[1..]);
    }
  }

  /** However the threads interleave, no reader of the b side runs beside a holder of the a side, and
      the counter does not go below zero. */
  lemma Exclusion(s: State, run: seq<(Thread, bool)>, a: Thread, b: Thread)
    requires Start(s) && Possible(s, run)
    requires a in After(s, run).at && b in After(s, run).at
    ensures var u := After(s, run); u.counter >= 0 && !(u.at[a].Holding? && u.at[b].Reading?)
  {
    assert CountedThreads(s.at) == {};
    RunKeepsInv(s, run);
    var u := After(s, run);
    if u.at[a].Holding? {
      assert a in CountedThreads(u.at);
      assert !AnyReader(u);
    }
  }

  /** Some thread can always go on. */
  lemma NoDeadlock(s: State) returns (t: Thread)
    requires Inv(s) && s.at.Keys != {}
    ensures Enabled(s, t)
  {
    if s.mutex.Some? {
      t := s.mutex.value;
      if !Enabled(s, t) {
        assert AnyReader(s) by {
          assert HolderAt(s).BWait?;
        }
        t :| t in s.at && s.at[t].Reading?;
      }
    } else if x :| x in s.at && !s.at[x].ReadWait? {
      t := x;
    } else {
      t :| t in s.at;
      assert CountedThreads(s.at) == {};
    }
  }

  function Readers(s: State): set<Thread> {
    set t | t in s.at && s.at[t].Reading?
  }

  /** While a thread waits for the b lock no reader starts, so that it is not kept waiting by new ones. */
  lemma NoReaderStarts(s: State, t: Thread, asReader: bool)
    requires Inv(s) && Enabled(s, t) && s.pending
    ensures Readers(Do(s, t, asReader)) <= Readers(s)
  {
  }

  predicate AllPending(s: State, run: seq<(Thread, bool)>)
    requires Possible(s, run)
    decreases |run|
  {
    s.pending && (run == [] || AllPending(Do(s, run[0].0, run[0].1), run[1..]))
  }

  /** However long it waits, whoever reads did so when it began to wait. */
  lemma {:induction false} WaiterIsNotOvertaken(s: State, run: seq<(Thread, bool)>)
    requires Inv(s) && Possible(s, run) && AllPending(s, run)
    ensures Readers(After(s, run)) <= Readers(s)
    decreases |run|
  {
    if run != [] {
      NoReaderStarts(s, run[0].0, run[0].1);
      StepKeepsInv(s, run[0].0, run[0].1);
      hide Readers, Inv;
      WaiterIsNotOvertaken(Do(s, run[0].0, run[0].1), run[1..]);
    }
  }

  predicate OnlyReaders(s: State, run: seq<(Thread, bool)>)
    requires Possible(s, run)
    decreases |run|
  {
    run == [] || (s.at[run[0].0].Reading? && OnlyReaders(Do(s, run[0].0, run[0].1), run[1..]))
  }

  /** A thread that waits for the b lock waits for readers only, all of which can end by themselves,
      without the mutex, and then it gets the lock. */
  lemma {:induction false} ReadersLetGo(s: State, t: Thread) returns (run: seq<(Thread, bool)>)
    requires Inv(s) && t in s.at && s.at[t].BWait?
    ensures Possible(s, run) && OnlyReaders(s, run)
    ensures Enabled(After(s, run), t) && After(s, run).at[t].BWait?
    decreases |Readers(s)|
  {
    if AnyReader(s) {
      var r :| r in s.at && s.at[r].Reading?;
      var u := Do(s, r, false);
      StepKeepsInv(s, r, false);
      assert Readers(s) == Readers(u) + {r};
      var rest := ReadersLetGo(u, t);
      run := [(r, false)] + rest;
      assert run[1..] == rest;
    } else {
      run := [];
    }
  }

  /** Alone, a thread gets either side. */
  lemma EitherSideCanBeTaken(s: State, t: Thread)
    requires Start(s) && t in s.at
    ensures var reader := [(t, true), (t, true)];
      Possible(s, reader) && t in After(s, reader).at && After(s, reader).at[t].Reading?
    ensures var locker := [(t, false), (t, false), (t, false), (t, false), (t, false), (t, false)];
      Possible(s, locker) && t in After(s, locker).at && After(s, locker).at[t].Holding?
  {
    var r1 := Do(s, t, true);
    assert Enabled(r1, t);
    FirstStep(s, t, true, []);
    FirstStep(r1, t, true, []);
    assert [(t, true)] + [(t, true)] == [(t, true), (t, true)];
    var l1 := Do(s, t, false);
    var l2 := Do(l1, t, false);
    var l3 := Do(l2, t, false);
    var l4 := Do(l3, t, false);
    var l5 := Do(l4, t, false);
    var x := (t, false);
    FirstStep(l5, t, false, []);
    FirstStep(l4, t, false, [x]);
    FirstStep(l3, t, false, [x] + [x]);
    FirstStep(l2, t, false, [x] + ([x] + [x]));
    FirstStep(l1, t, false, [x] + ([x] + ([x] + [x])));
    FirstStep(s, t, false, [x] + ([x] + ([x] + ([x] + [x]))));
    assert [x, x, x, x, x, x] == [x] + ([x] + ([x] + ([x] + ([x] + [x]))));
    assert [x] + [] == [x];
  }

  lemma FirstStep(s: State, t: Thread, asReader: bool, rest: seq<(Thread, bool)>)
    requires Enabled(s, t)
    ensures Possible(s, [(t, asReader)] + rest) <==> Possible(Do(s, t, asReader), rest)
    ensures Possible(Do(s, t, asReader), rest) ==>
      After(s, [(t, asReader)] + rest) == After(Do(s, t, asReader), rest)
  {
    assert ([(t, asReader)] + rest)[1..] == rest;
  }
}
