/**
 The recursive SMP spinlock of the kernel headers, as a transition system with one
 step per memory access.  Every CPU runs one sequential thread (interrupts are off
 while the lock is used) and memory is sequentially consistent.
 */
module Spinlock {

  const FREE := 0
  const TAKEN := 1
  const NOBODY := -1
  const DEEP := 50
  const WORDS := 0x1_0000_0000

  /** A 32-bit two's-complement word. */
  type Word = x: int | -0x8000_0000 <= x < 0x8000_0000

  function Wrap(x: int): Word {
    (x + 0x8000_0000) % WORDS - 0x8000_0000
  }

  /** The next memory access of a CPU; a loaded counter waits in a register for its store. */
  datatype Pc =
    | Idle
    | Swap | ReadOwner | WriteOwner
    | IncLoad | IncStore(loaded: Word) | IncCheck
    | DecLoad | DecStore(fetched: Word) | DecCheck
    | ClearOwner | ClearLock

  /** `held` counts the spinlock calls that returned (with 0 or -1) less the spinunlock calls begun. */
  datatype Cpu = Cpu(pc: Pc, held: nat, result: int)

  datatype State = State(locked: int, owner: int, nest: Word, cpus: seq<Cpu>)

  datatype Call = Lock | Unlock

  /** CPU `cpu` makes its next access; `call` says which function it enters when it is idle. */
  datatype Event = Event(cpu: nat, call: Call)

  function Init(n: nat): State {
    State(FREE, NOBODY, 0, seq(n, _ => Cpu(Idle, 0, 0)))
  }

  function At(s: State, c: nat, pc: Pc): State
    requires c < |s.cpus|
  {
    s.(cpus := s.cpus[c := s.cpus[c].(pc := pc)])
  }

  /** A CPU calls spinunlock only while it holds the lock. */
  predicate Enabled(s: State, e: Event) {
    e.cpu < |s.cpus| && (s.cpus[e.cpu].pc == Idle && e.call == Unlock ==> s.cpus[e.cpu].held > 0)
  }

  /** One memory access of one CPU. */
  function Step(s: State, e: Event): State
    requires Enabled(s, e)
  {
    var c := e.cpu;
    var me := s.cpus[c];
    match me.pc
    case Idle =>
      if e.call == Lock then At(s, c, Swap)
      else s.(cpus := s.cpus[c := me.(pc := DecLoad, held := me.held - 1)])
    case Swap => At(s, c, if s.locked == TAKEN then ReadOwner else WriteOwner).(locked := TAKEN)
    case ReadOwner => At(s, c, if s.owner == c then IncLoad else Swap)
    case WriteOwner => At(s, c, IncLoad).(owner := c)
    case IncLoad => At(s, c, IncStore(s.nest))
    case IncStore(t) => At(s, c, IncCheck).(nest := Wrap(t + 1))
    case IncCheck =>
      s.(cpus := s.cpus[c := Cpu(Idle, me.held + 1, if s.nest > DEEP then -1 else 0)])
    case DecLoad => At(s, c, DecStore(s.nest))
    case DecStore(t) => At(s, c, DecCheck).(nest := Wrap(t - 1))
    case DecCheck => At(s, c, if s.nest == 0 then ClearOwner else Idle)
    case ClearOwner => At(s, c, ClearLock).(owner := NOBODY)
    case ClearLock => At(s, c, Idle).(locked := FREE)
  }

  /** What callers promise: unlock only while holding, and hold at most `limit` levels. */
  predicate Allowed(limit: nat, s: State, e: Event) {
    && Enabled(s, e)
    && (s.cpus[e.cpu].pc == Idle && e.call == Lock ==> s.cpus[e.cpu].held < limit)
  }

  predicate IsRun(limit: nat, n: nat, run: seq<Event>)
    decreases |run|, 0
  {
    run == [] ||
    var before := run[..|run| - 1];
    IsRun(limit, n, before) && Allowed(limit, After(limit, n, before), run[|run| - 1])
  }

  /** The state a run from the initial state ends in. */
  function After(limit: nat, n: nat, run: seq<Event>): (s: State)
    requires IsRun(limit, n, run)
    ensures |s.cpus| == n
    decreases |run|, 1
  {
    if run == [] then Init(n)
    else Step(After(limit, n, run[..|run| - 1]), run[|run| - 1])
  }

  /** The CPU is past its acquiring swap and not yet past the store that frees the lock. */
  predicate Inside(cpu: Cpu) {
    cpu.held > 0 || (cpu.pc != Idle && cpu.pc != Swap && cpu.pc != ReadOwner)
  }

  // ---------------------------------------------------------------------------
  // The invariant
  // ---------------------------------------------------------------------------

  /** What the shared words hold while `me` is the CPU inside. */
  predicate HolderView(limit: nat, s: State, h: nat)
    requires h < |s.cpus|
  {
    var me := s.cpus[h];
    && s.locked == TAKEN
    && s.owner == (if me.pc == WriteOwner || me.pc == ClearLock then NOBODY else h)
    && me.held <= limit
    && match me.pc
       case Idle | Swap | ReadOwner =>
         me.held > 0 && s.nest == Wrap(me.held) && (me.pc != Idle ==> me.held < limit)
       case WriteOwner => me.held == 0 && s.nest == 0 && limit > 0
       case IncLoad => s.nest == Wrap(me.held) && me.held < limit
       case IncStore(t) => t == s.nest == Wrap(me.held) && me.held < limit
       case IncCheck => s.nest == Wrap(me.held + 1) && me.held < limit
       case DecLoad => s.nest == Wrap(me.held + 1) && me.held < limit
       case DecStore(t) => t == s.nest == Wrap(me.held + 1) && me.held < limit
       case DecCheck => s.nest == Wrap(me.held) && me.held < limit
       case ClearOwner | ClearLock => me.held == 0 && s.nest == 0
  }

  ghost predicate OthersOutside(s: State, h: int) {
    forall c :: 0 <= c < |s.cpus| && c != h ==> !Inside(s.cpus[c])
  }

  /** `h` is the only CPU inside, or NOBODY is. */
  ghost predicate InvFor(limit: nat, s: State, h: int) {
    && NOBODY <= h < |s.cpus|
    && OthersOutside(s, h)
    && (h == NOBODY ==> s.locked == FREE && s.owner == NOBODY && s.nest == 0)
    && (h != NOBODY ==> Inside(s.cpus[h]) && HolderView(limit, s, h))
  }

  /** Who is inside after one access: only the winning swap and the freeing store change it. */
  function NextHolder(s: State, e: Event, h: int): int
    requires e.cpu < |s.cpus|
  {
    if s.cpus[e.cpu].pc == Swap && s.locked == FREE then e.cpu
    else if s.cpus[e.cpu].pc == ClearLock then NOBODY
    else h
  }

  lemma {:induction false} OnlyOneCpuMoves(s: State, e: Event)
    requires Enabled(s, e)
    ensures |Step(s, e).cpus| == |s.cpus|
    ensures forall c :: 0 <= c < |s.cpus| && c != e.cpu ==> Step(s, e).cpus[c] == s.cpus[c]
  {
  }

  /** A CPU outside can only enter, spin, or win the swap of a free lock. */
  lemma {:induction false} OutsiderStep(limit: nat, s: State, e: Event, h: int)
    requires 0 < limit
    requires InvFor(limit, s, h) && Allowed(limit, s, e) && e.cpu != h
    ensures InvFor(limit, Step(s, e), NextHolder(s, e, h))
  {
    OnlyOneCpuMoves(s, e);
    assert !Inside(s.cpus[e.cpu]);
  }

  lemma {:induction false} WrapStep(x: int)
    ensures Wrap(Wrap(x) + 1) == Wrap(x + 1)
    ensures Wrap(Wrap(x + 1) - 1) == Wrap(x)
  {
    var y := x + 0x8000_0000;
    var q, r := y / WORDS, y % WORDS;
    if r + 1 < WORDS {
      assert (y + 1) / WORDS == q;
    } else {
      assert (y + 1) / WORDS == q + 1;
    }
  }

  lemma {:induction false} HolderStep(limit: nat, s: State, e: Event)
    requires limit <= WORDS
    requires InvFor(limit, s, e.cpu) && Allowed(limit, s, e)
    ensures InvFor(limit, Step(s, e), NextHolder(s, e, e.cpu))
  {
    OnlyOneCpuMoves(s, e);
    var me, s' := s.cpus[e.cpu], Step(s, e);
    assert OthersOutside(s', e.cpu);
    assert me.pc == ClearLock ==> OthersOutside(s', NOBODY);
    WrapStep(me.held);
    assert me.held < WORDS ==> (Wrap(me.held) == 0 <==> me.held == 0);
    hide Wrap, OthersOutside;
  }

  lemma {:induction false} AnyStepKeepsInv(limit: nat, s: State, e: Event, h: int)
    requires 0 < limit <= WORDS
    requires InvFor(limit, s, h) && Allowed(limit, s, e)
    ensures InvFor(limit, Step(s, e), NextHolder(s, e, h))
  {
    if e.cpu == h { HolderStep(limit, s, e); } else { OutsiderStep(limit, s, e, h); }
  }

  lemma {:induction false} RunKeepsInv(limit: nat, n: nat, run: seq<Event>) returns (h: int)
    requires 0 < limit <= WORDS && IsRun(limit, n, run)
    ensures InvFor(limit, After(limit, n, run), h)
  {
    if run == [] {
      h := NOBODY;
    } else {
      var before := run[..|run| - 1];
      var g := RunKeepsInv(limit, n, before);
      var s, e := After(limit, n, before), run[|run| - 1];
      AnyStepKeepsInv(limit, s, e, g);
      h := NextHolder(s, e, g);
    }
  }

  // ---------------------------------------------------------------------------
  // Safety over every run
  // ---------------------------------------------------------------------------

  ghost predicate Exclusive(s: State) {
    forall c, d :: 0 <= c < |s.cpus| && 0 <= d < |s.cpus| && Inside(s.cpus[c]) && Inside(s.cpus[d]) ==> c == d
  }

  /** At most one CPU is inside, and the lock word is free exactly when nobody is. */
  lemma {:induction false} RunsAreExclusive(limit: nat, n: nat, run: seq<Event>)
    requires 0 < limit <= WORDS && IsRun(limit, n, run)
    ensures var s := After(limit, n, run);
            && Exclusive(s)
            && (s.locked == FREE <==> forall c :: 0 <= c < n ==> !Inside(s.cpus[c]))
  {
    var h := RunKeepsInv(limit, n, run);
    var s := After(limit, n, run);
    if s.locked == FREE && h != NOBODY { assert false; }
  }

  /** The owner word names a CPU only while that CPU is inside; a spinning CPU's
      re-entry test is true exactly when it already holds the lock. */
  lemma {:induction false} OwnerTestIsNeverFooled(limit: nat, n: nat, run: seq<Event>, c: nat)
    requires 0 < limit <= WORDS && IsRun(limit, n, run) && c < n
    ensures var s := After(limit, n, run);
            && (s.owner == c ==> Inside(s.cpus[c]))
            && (s.cpus[c].pc == ReadOwner ==> (s.owner == c <==> s.cpus[c].held > 0))
  {
    var h := RunKeepsInv(limit, n, run);
  }

  /** Between calls the nesting word is the holder's outstanding count, as a 32-bit word;
      a call reports -1 exactly from the 51st outstanding level up to the sign change. */
  lemma {:induction false} NestCountsOutstandingCalls(limit: nat, n: nat, run: seq<Event>, c: nat)
    requires 0 < limit <= WORDS && IsRun(limit, n, run) && c < n
    ensures var s := After(limit, n, run);
            var me := s.cpus[c];
            && (me.pc == Idle && me.held > 0 ==> s.locked == TAKEN && s.owner == c && s.nest == Wrap(me.held))
            && (me.pc == Idle && 0 < me.held < 0x8000_0000 ==> s.nest == me.held)
            && (me.pc == IncCheck ==>
                  var done := Step(s, Event(c, Lock)).cpus[c];
                  done.held == me.held + 1 && (done.result == -1 <==> DEEP < done.held < 0x8000_0000))
  {
    var h := RunKeepsInv(limit, n, run);
    var s := After(limit, n, run);
    if Inside(s.cpus[c]) { assert h == c; }
  }

  // ---------------------------------------------------------------------------
  // What a call has done when it returns
  // ---------------------------------------------------------------------------

  lemma {:induction false} PrefixIsRun(limit: nat, n: nat, run: seq<Event>, i: nat)
    requires IsRun(limit, n, run) && i <= |run|
    ensures IsRun(limit, n, run[..i])
    decreases |run|
  {
    if i == |run| {
      assert run[..i] == run;
    } else {
      PrefixIsRun(limit, n, run[..|run| - 1], i);
      assert run[..|run| - 1][..i] == run[..i];
    }
  }

  /** The state before step i of a run. */
  function StateAt(limit: nat, n: nat, run: seq<Event>, i: nat): (s: State)
    requires IsRun(limit, n, run) && i <= |run|
    ensures |s.cpus| == n
  {
    PrefixIsRun(limit, n, run, i);
    After(limit, n, run[..i])
  }

  lemma {:induction false} StepAt(limit: nat, n: nat, run: seq<Event>, i: nat)
    requires IsRun(limit, n, run) && i < |run|
    ensures var s := StateAt(limit, n, run, i);
            Allowed(limit, s, run[i]) && StateAt(limit, n, run, i + 1) == Step(s, run[i])
  {
    PrefixIsRun(limit, n, run, i + 1);
    assert run[..i + 1][..i] == run[..i];
    hide Step, Allowed;
  }

  /** A call, begun by an idle CPU with step k, that returns with step m. */
  ghost predicate IsCall(limit: nat, n: nat, run: seq<Event>, k: nat, m: nat)
    requires IsRun(limit, n, run)
  {
    && k < m < |run| && run[k].cpu == run[m].cpu < n
    && StateAt(limit, n, run, k).cpus[run[k].cpu].pc == Idle
    && StateAt(limit, n, run, m + 1).cpus[run[k].cpu].pc == Idle
    && forall i :: k < i <= m ==> StateAt(limit, n, run, i).cpus[run[k].cpu].pc != Idle
  }

  /** Which accesses belong to which call, and what the call has done to the depth so far. */
  predicate InCall(me: Cpu, call: Call, held: nat) {
    match me.pc
    case Idle => me.held == held + if call == Lock then 1 else -1
    case Swap | ReadOwner | WriteOwner | IncLoad | IncStore(_) | IncCheck => call == Lock && me.held == held
    case _ => call == Unlock && me.held == held - 1
  }

  lemma {:induction false} CallBegins(s: State, e: Event)
    requires Enabled(s, e) && s.cpus[e.cpu].pc == Idle
    ensures var me := Step(s, e).cpus[e.cpu]; me.pc != Idle && InCall(me, e.call, s.cpus[e.cpu].held)
  {
  }

  lemma {:induction false} CallGoesOn(s: State, e: Event, call: Call, held: nat)
    requires Enabled(s, e) && s.cpus[e.cpu].pc != Idle && InCall(s.cpus[e.cpu], call, held)
    ensures InCall(Step(s, e).cpus[e.cpu], call, held)
  {
  }

  lemma {:induction false} CallSoFar(limit: nat, n: nat, run: seq<Event>, k: nat, m: nat, i: nat)
    requires IsRun(limit, n, run) && IsCall(limit, n, run, k, m) && k < i <= m + 1
    ensures InCall(StateAt(limit, n, run, i).cpus[run[k].cpu], run[k].call,
                   StateAt(limit, n, run, k).cpus[run[k].cpu].held)
  {
    StepAt(limit, n, run, i - 1);
    var s, e := StateAt(limit, n, run, i - 1), run[i - 1];
    if i == k + 1 {
      hide StateAt, InCall;
      CallBegins(s, e);
    } else {
      CallSoFar(limit, n, run, k, m, i - 1);
      assert s.cpus[run[k].cpu].pc != Idle;
      hide StateAt, InCall, IsCall, Step;
      OnlyOneCpuMoves(s, e);
      if e.cpu == run[k].cpu {
        CallGoesOn(s, e, run[k].call, StateAt(limit, n, run, k).cpus[e.cpu].held);
      }
    }
  }

  lemma {:induction false} InvAt(limit: nat, n: nat, run: seq<Event>, i: nat) returns (h: int)
    requires 0 < limit <= WORDS && IsRun(limit, n, run) && i <= |run|
    ensures InvFor(limit, StateAt(limit, n, run, i), h)
  {
    PrefixIsRun(limit, n, run, i);
    h := RunKeepsInv(limit, n, run[..i]);
    hide InvFor;
  }

  /** The step that ends a lock call leaves its CPU with the lock. */
  lemma {:induction false} HoldsAfter(limit: nat, s: State, e: Event, h: int, held: nat)
    requires 0 < limit <= WORDS && InvFor(limit, s, h) && Allowed(limit, s, e)
    requires s.cpus[e.cpu].pc != Idle && InCall(s.cpus[e.cpu], Lock, held) && Step(s, e).cpus[e.cpu].pc == Idle
    ensures var s' := Step(s, e);
            && Inside(s'.cpus[e.cpu]) && s'.locked == TAKEN && s'.owner == e.cpu
            && s'.cpus[e.cpu].held == held + 1
            && s'.cpus[e.cpu].result == if DEEP < held + 1 < 0x8000_0000 then -1 else 0
  {
    CallGoesOn(s, e, Lock, held);
    assert s.cpus[e.cpu].pc == IncCheck;
    assert Inside(s.cpus[e.cpu]);
  }

  /** The step that ends an unlock call leaves the lock with its CPU, or free. */
  lemma {:induction false} FreeAfter(limit: nat, s: State, e: Event, h: int, held: nat)
    requires 0 < limit <= WORDS && InvFor(limit, s, h) && Allowed(limit, s, e)
    requires s.cpus[e.cpu].pc != Idle && InCall(s.cpus[e.cpu], Unlock, held) && Step(s, e).cpus[e.cpu].pc == Idle
    ensures var s' := Step(s, e);
            && s'.cpus[e.cpu].held == held - 1
            && if held > 1 then Inside(s'.cpus[e.cpu]) && s'.locked == TAKEN && s'.owner == e.cpu
               else !Inside(s'.cpus[e.cpu]) && s'.locked == FREE && s'.owner == NOBODY
  {
    CallGoesOn(s, e, Unlock, held);
    assert s.cpus[e.cpu].pc == DecCheck || s.cpus[e.cpu].pc == ClearLock;
    assert Inside(s.cpus[e.cpu]);
  }

  /** In every run a spinlock call returns only to a CPU that has the lock, one level deeper
      than before, whatever other CPUs did meanwhile. */
  lemma {:induction false} LockReturnsHolding(limit: nat, n: nat, run: seq<Event>, k: nat, m: nat)
    requires 0 < limit <= WORDS && IsRun(limit, n, run) && IsCall(limit, n, run, k, m) && run[k].call == Lock
    ensures var c, s, s' := run[k].cpu, StateAt(limit, n, run, k), StateAt(limit, n, run, m + 1);
            && s'.cpus[c].held == s.cpus[c].held + 1
            && Inside(s'.cpus[c]) && s'.locked == TAKEN && s'.owner == c
            && s'.cpus[c].result == if DEEP < s'.cpus[c].held < 0x8000_0000 then -1 else 0
  {
    CallSoFar(limit, n, run, k, m, m);
    StepAt(limit, n, run, m);
    var h := InvAt(limit, n, run, m);
    var s := StateAt(limit, n, run, m);
    assert s.cpus[run[k].cpu].pc != Idle && Step(s, run[m]).cpus[run[k].cpu].pc == Idle;
    hide StateAt, InvFor, Step, InCall;
    HoldsAfter(limit, s, run[m], h, StateAt(limit, n, run, k).cpus[run[k].cpu].held);
  }

  /** In every run a spinunlock call returns one level higher, with the lock free exactly when
      that was the last. */
  lemma {:induction false} UnlockReturnsReleased(limit: nat, n: nat, run: seq<Event>, k: nat, m: nat)
    requires 0 < limit <= WORDS && IsRun(limit, n, run) && IsCall(limit, n, run, k, m) && run[k].call == Unlock
    ensures var c, s, s' := run[k].cpu, StateAt(limit, n, run, k), StateAt(limit, n, run, m + 1);
            && s'.cpus[c].held == s.cpus[c].held - 1
            && if s'.cpus[c].held > 0 then Inside(s'.cpus[c]) && s'.locked == TAKEN && s'.owner == c
               else !Inside(s'.cpus[c]) && s'.locked == FREE && s'.owner == NOBODY
  {
    CallSoFar(limit, n, run, k, m, m);
    StepAt(limit, n, run, m);
    var h := InvAt(limit, n, run, m);
    var s := StateAt(limit, n, run, m);
    assert s.cpus[run[k].cpu].pc != Idle && Step(s, run[m]).cpus[run[k].cpu].pc == Idle;
    hide StateAt, InvFor, Step, InCall;
    FreeAfter(limit, s, run[m], h, StateAt(limit, n, run, k).cpus[run[k].cpu].held);
  }

  // ---------------------------------------------------------------------------
  // The depth limit is exact: one level more and two CPUs can be inside
  // ---------------------------------------------------------------------------

  lemma {:induction false} Extend(limit: nat, n: nat, run: seq<Event>, e: Event)
    requires IsRun(limit, n, run) && Allowed(limit, After(limit, n, run), e)
    ensures IsRun(limit, n, run + [e])
    ensures After(limit, n, run + [e]) == Step(After(limit, n, run), e)
  {
    assert (run + [e])[..|run|] == run;
  }

  /** Three accesses of one CPU. */
  lemma {:induction false} Thrice(limit: nat, n: nat, run: seq<Event>, e: Event) returns (more: seq<Event>)
    requires IsRun(limit, n, run) && ThriceAllowed(limit, After(limit, n, run), e)
    ensures IsRun(limit, n, more) && After(limit, n, more) == ThreeSteps(limit, After(limit, n, run), e)
  {
    hide Step, Allowed;
    Extend(limit, n, run, e);
    more := run + [e];
    Extend(limit, n, more, e);
    more := more + [e];
    Extend(limit, n, more, e);
    more := more + [e];
  }

  predicate ThriceAllowed(limit: nat, s: State, e: Event) {
    && Allowed(limit, s, e) && Allowed(limit, Step(s, e), e) && Allowed(limit, Step(Step(s, e), e), e)
  }

  function ThreeSteps(limit: nat, s: State, e: Event): State
    requires ThriceAllowed(limit, s, e)
  {
    Step(Step(Step(s, e), e), e)
  }

  /** CPU 0 is between calls at depth `d`, every other CPU has done nothing. */
  ghost predicate Nested(s: State, d: nat) {
    && |s.cpus| > 1
    && s.cpus[0].pc == Idle && s.cpus[0].held == d
    && s.cpus[1] == Cpu(Idle, 0, 0)
    && s.nest == Wrap(d)
    && (if d == 0 then s.locked == FREE else s.locked == TAKEN && s.owner == 0)
  }

  /** As `Nested`, but CPU 0 is in a call and about to load the counter. */
  ghost predicate Counting(s: State, d: nat) {
    && |s.cpus| > 1
    && s.cpus[0].pc == IncLoad && s.cpus[0].held == d
    && s.cpus[1] == Cpu(Idle, 0, 0)
    && s.nest == Wrap(d) && s.locked == TAKEN && s.owner == 0
  }

  lemma {:induction false} EnterSteps(limit: nat, s: State, d: nat)
    requires Nested(s, d) && d < limit
    ensures ThriceAllowed(limit, s, Event(0, Lock)) && Counting(ThreeSteps(limit, s, Event(0, Lock)), d)
  {
    hide Wrap;
  }

  lemma {:induction false} FinishSteps(limit: nat, s: State, d: nat)
    requires Counting(s, d) && d < limit
    ensures ThriceAllowed(limit, s, Event(0, Lock)) && Nested(ThreeSteps(limit, s, Event(0, Lock)), d + 1)
  {
    WrapStep(d);
    hide Wrap;
  }

  lemma {:induction false} NestTo(limit: nat, n: nat, d: nat) returns (run: seq<Event>)
    requires n > 1 && d <= limit
    ensures IsRun(limit, n, run) && Nested(After(limit, n, run), d)
  {
    if d == 0 {
      run := [];
    } else {
      run := NestTo(limit, n, d - 1);
      EnterSteps(limit, After(limit, n, run), d - 1);
      run := Thrice(limit, n, run, Event(0, Lock));
      FinishSteps(limit, After(limit, n, run), d - 1);
      run := Thrice(limit, n, run, Event(0, Lock));
      hide Nested, Counting, ThriceAllowed, ThreeSteps;
    }
  }

  /** CPU 0 has begun an unlock and counted down to `d`. */
  ghost predicate CountedDown(s: State, d: nat) {
    && |s.cpus| > 1
    && s.cpus[0].pc == DecCheck && s.cpus[0].held == d && s.nest == Wrap(d) && s.cpus[1] == Cpu(Idle, 0, 0)
  }

  lemma {:induction false} CountDownSteps(limit: nat, s: State, d: nat)
    requires Nested(s, d + 1)
    ensures ThriceAllowed(limit, s, Event(0, Unlock)) && CountedDown(ThreeSteps(limit, s, Event(0, Unlock)), d)
  {
    WrapStep(d);
    hide Wrap;
  }

  /** CPU 1 has done nothing, and finds the lock free although CPU 0 holds it. */
  ghost predicate WronglyFree(s: State) {
    && |s.cpus| > 1
    && s.locked == FREE && s.cpus[0].held == WORDS && s.cpus[1] == Cpu(Idle, 0, 0)
  }

  /** At depth 2^32 the counter reads zero, which frees the lock. */
  lemma {:induction false} FreeSteps(limit: nat, s: State)
    requires CountedDown(s, WORDS)
    ensures ThriceAllowed(limit, s, Event(0, Unlock)) && WronglyFree(ThreeSteps(limit, s, Event(0, Unlock)))
  {
    assert Wrap(WORDS) == 0;
    hide Wrap;
  }

  /** One unlock at depth 2^32 + 1 makes the counter read zero, which frees the lock too early. */
  lemma {:induction false} FreedTooEarly(limit: nat, n: nat, run: seq<Event>) returns (freed: seq<Event>)
    requires n > 1 && IsRun(limit, n, run) && Nested(After(limit, n, run), WORDS + 1)
    ensures IsRun(limit, n, freed) && WronglyFree(After(limit, n, freed))
  {
    CountDownSteps(limit, After(limit, n, run), WORDS);
    freed := Thrice(limit, n, run, Event(0, Unlock));
    FreeSteps(limit, After(limit, n, freed));
    freed := Thrice(limit, n, freed, Event(0, Unlock));
    hide Nested, CountedDown, WronglyFree, ThriceAllowed, ThreeSteps;
  }

  lemma {:induction false} BeyondTheLimit(limit: nat, n: nat) returns (run: seq<Event>)
    requires n > 1 && limit > WORDS
    ensures IsRun(limit, n, run) && !Exclusive(After(limit, n, run))
  {
    run := NestTo(limit, n, WORDS + 1);
    run := FreedTooEarly(limit, n, run);
    var e := Event(1, Lock);
    Extend(limit, n, run, e);
    run := run + [e];
    Extend(limit, n, run, e);
    run := run + [e];
    assert Inside(After(limit, n, run).cpus[0]) && Inside(After(limit, n, run).cpus[1]);
  }

  /** Mutual exclusion over every run holds if and only if callers nest at most 2^32 deep. */
  lemma {:induction false} ExclusiveExactlyUpToTheLimit(limit: nat, n: nat)
    requires n > 1 && limit > 0
    ensures (forall run :: IsRun(limit, n, run) ==> Exclusive(After(limit, n, run))) <==> limit <= WORDS
  {
    if limit <= WORDS {
      forall run | IsRun(limit, n, run) ensures Exclusive(After(limit, n, run)) {
        RunsAreExclusive(limit, n, run);
      }
    } else {
      var run := BeyondTheLimit(limit, n);
    }
  }

  // ---------------------------------------------------------------------------
  // The lock word by word, updated in place
  // ---------------------------------------------------------------------------

  class SpinLock {
    var nLocked: int
    var nProc: int
    var nNest: Word
    var cpus: seq<Cpu>

    function View(): State
      reads this
    {
      State(nLocked, nProc, nNest, cpus)
    }

    constructor (n: nat)
      ensures View() == Init(n)
    {
      nLocked, nProc, nNest := FREE, NOBODY, 0;
      cpus := seq(n, _ => Cpu(Idle, 0, 0));
    }

    method Goto(c: nat, pc: Pc)
      requires c < |cpus|
      modifies this`cpus
      ensures cpus == old(cpus)[c := old(cpus)[c].(pc := pc)]
    {
      cpus := cpus[c := cpus[c].(pc := pc)];
    }

    /** The next memory access of one CPU. */
    method Access(e: Event)
      requires Enabled(View(), e)
      modifies this
      ensures View() == Step(old(View()), e)
    {
      var c := e.cpu;
      match cpus[c].pc {
        case Idle =>
          if e.call == Lock {
            Goto(c, Swap);
          } else {
            cpus := cpus[c := cpus[c].(pc := DecLoad, held := cpus[c].held - 1)];
          }
        case Swap =>
          var before := nLocked;
          nLocked := TAKEN;
          Goto(c, if before == TAKEN then ReadOwner else WriteOwner);
        case ReadOwner => Goto(c, if nProc == c then IncLoad else Swap);
        case WriteOwner => nProc := c; Goto(c, IncLoad);
        case IncLoad => Goto(c, IncStore(nNest));
        case IncStore(t) => nNest := Wrap(t + 1); Goto(c, IncCheck);
        case IncCheck =>
          cpus := cpus[c := Cpu(Idle, cpus[c].held + 1, if nNest > DEEP then -1 else 0)];
        case DecLoad => Goto(c, DecStore(nNest));
        case DecStore(t) => nNest := Wrap(t - 1); Goto(c, DecCheck);
        case DecCheck => Goto(c, if nNest == 0 then ClearOwner else Idle);
        case ClearOwner => nProc := NOBODY; Goto(c, ClearLock);
        case ClearLock => nLocked := FREE; Goto(c, Idle);
      }
    }

    /** The rest of a call, wherever other CPUs have left it, once none of them is inside and
        none interferes: it terminates without waiting any more. */
    method FinishAlone(limit: nat, e: Event, ghost h: int, ghost call: Call, ghost held: nat)
      requires 0 < limit <= WORDS && InvFor(limit, View(), h) && e.cpu < |cpus| && (h == NOBODY || h == e.cpu)
      requires InCall(cpus[e.cpu], call, held)
      modifies this
      ensures |cpus| == |old(cpus)| && cpus[e.cpu].pc == Idle
      ensures cpus[e.cpu].held == held + if call == Lock then 1 else -1
      ensures forall c :: 0 <= c < |cpus| && c != e.cpu ==> cpus[c] == old(cpus)[c]
      ensures InvFor(limit, View(), if cpus[e.cpu].held > 0 then e.cpu else NOBODY)
    {
      hide Wrap, Remaining, HolderView;
      ghost var before := cpus;
      ghost var h := h;
      while cpus[e.cpu].pc != Idle
        invariant |cpus| == |before|
        invariant forall c :: 0 <= c < |cpus| && c != e.cpu ==> cpus[c] == before[c]
        invariant h == NOBODY || h == e.cpu
        invariant InvFor(limit, View(), h)
        invariant InCall(cpus[e.cpu], call, held)
        decreases Remaining(cpus[e.cpu])
      {
        hide InvFor, InCall, Step, NextHolder;
        SoloHolder(limit, View(), e, h);
        SoloProgress(limit, View(), e, h);
        CallGoesOn(View(), e, call, held);
        AnyStepKeepsInv(limit, View(), e, h);
        OnlyOneCpuMoves(View(), e);
        h := NextHolder(View(), e, h);
        Access(e);
      }
    }

    /** A whole call made while no other CPU is inside and none interferes: it moves the depth
        by one, and gives the lock up exactly at depth zero. */
    method CallAlone(limit: nat, e: Event)
      requires 0 < limit <= WORDS
      requires Allowed(limit, View(), e) && cpus[e.cpu].pc == Idle
      requires InvFor(limit, View(), NOBODY) || InvFor(limit, View(), e.cpu)
      modifies this
      ensures |cpus| == |old(cpus)| && cpus[e.cpu].pc == Idle
      ensures cpus[e.cpu].held == old(cpus)[e.cpu].held + if e.call == Lock then 1 else -1
      ensures forall c :: 0 <= c < |cpus| && c != e.cpu ==> cpus[c] == old(cpus)[c]
      ensures InvFor(limit, View(), if cpus[e.cpu].held > 0 then e.cpu else NOBODY)
    {
      hide Wrap, HolderView;
      ghost var held := cpus[e.cpu].held;
      ghost var h := if held > 0 then e.cpu else NOBODY;
      AnyStepKeepsInv(limit, View(), e, h);
      CallBegins(View(), e);
      OnlyOneCpuMoves(View(), e);
      h := NextHolder(View(), e, h);
      Access(e);
      FinishAlone(limit, e, h, e.call, held);
    }
  }

  /** Within a call alone, every access is allowed and no other CPU comes to be inside. */
  lemma {:induction false} SoloHolder(limit: nat, s: State, e: Event, h: int)
    requires InvFor(limit, s, h) && e.cpu < |s.cpus| && s.cpus[e.cpu].pc != Idle && (h == NOBODY || h == e.cpu)
    ensures Allowed(limit, s, e) && (NextHolder(s, e, h) == NOBODY || NextHolder(s, e, h) == e.cpu)
  {
  }

  /** An access within a call that meets no other CPU brings the call nearer its end. */
  lemma {:induction false} SoloProgress(limit: nat, s: State, e: Event, h: int)
    requires 0 < limit <= WORDS && InvFor(limit, s, h) && Allowed(limit, s, e)
    requires (h == NOBODY || h == e.cpu) && s.cpus[e.cpu].pc != Idle
    ensures Remaining(Step(s, e).cpus[e.cpu]) < Remaining(s.cpus[e.cpu])
  {
    hide Wrap;
  }

  /** Accesses left in a call that meets no other CPU; one that has lost a swap to a CPU gone
      since must swap again. */
  function Remaining(me: Cpu): nat {
    match me.pc
    case Idle => 0
    case Swap => 6
    case ReadOwner => if me.held > 0 then 4 else 7
    case WriteOwner => 4
    case IncLoad => 3
    case DecLoad => 5
    case IncStore(_) => 2
    case DecStore(_) => 4
    case IncCheck => 1
    case DecCheck => 3
    case ClearOwner => 2
    case ClearLock => 1
  }
}
