/**
 The kernel's atomic operations.  atomic_add, atomic_or and atomic_and are retry loops
 around a locked compare-and-exchange; atomic_swap and atomic_dec_and_test are single
 locked instructions.  Any number of CPUs interleave, one memory access at a time.
 */
module Atomic {
  import opened Common

  const WORDS := 0x1_0000_0000
  const SIGN := 0x8000_0000

  /** A 32-bit pattern read as a signed integer. */
  function Signed(x: Word): int {
    if x < SIGN then x else x - WORDS
  }

  datatype Op = Add(value: Word) | Or(value: Word) | And(value: Word) | Xchg(value: Word) | DecTest

  function TwoTo(n: nat): (r: nat)
    ensures r > 0
  {
    if n <= 0 then 1 else 2 * TwoTo(n - 1)
  }

  /** The bitwise or of two patterns of n bits; the bitwise and below. */
  function OrOf(x: nat, y: nat, n: nat): (r: nat)
    ensures r < TwoTo(n)
  {
    if n <= 0 then 0 else 2 * OrOf(x / 2, y / 2, n - 1) + if x % 2 == 1 || y % 2 == 1 then 1 else 0
  }

  function AndOf(x: nat, y: nat, n: nat): (r: nat)
    ensures r < TwoTo(n)
  {
    if n <= 0 then 0 else 2 * AndOf(x / 2, y / 2, n - 1) + if x % 2 == 1 && y % 2 == 1 then 1 else 0
  }

  lemma {:induction false} WordsAre32Bits()
    ensures TwoTo(32) == WORDS
  {
    assert TwoTo(8) == 0x100;
    assert TwoTo(16) == 0x1_0000;
    assert TwoTo(24) == 0x100_0000;
  }

  function OrBits(x: Word, y: Word): Word {
    WordsAre32Bits();
    OrOf(x, y, 32)
  }

  function AndBits(x: Word, y: Word): Word {
    WordsAre32Bits();
    AndOf(x, y, 32)
  }

  function Apply(op: Op, x: Word): Word {
    match op
    case Add(v) => (x + v) % WORDS
    case Or(v) => OrBits(x, v)
    case And(v) => AndBits(x, v)
    case Xchg(v) => v
    case DecTest => (x + WORDS - 1) % WORDS
  }

  predicate Retries(op: Op) {
    op.Add? || op.Or? || op.And?
  }

  /** What atomic_dec_and_test reports: the sign and overflow flags of the decrement
      amount to comparing the unwrapped result with zero. */
  predicate DecReports(before: Word) {
    Signed(before) - 1 <= 0
  }

  datatype Pc =
    | Idle
    | Start(op: Op)
    | Loaded(op: Op, eax: Word)
    | Computed(op: Op, eax: Word, edx: Word)

  /** `seen` is the number of completed operations at this CPU's latest load of the word. */
  datatype Cpu = Cpu(pc: Pc, seen: nat, failures: nat)

  datatype Entry = Entry(cpu: nat, op: Op, returned: Word)

  /** `log` lists the completed operations, oldest first. */
  datatype State = State(target: Word, log: seq<Entry>, cpus: seq<Cpu>)

  /** CPU `cpu` makes its next step; an idle CPU starts `op`. */
  datatype Event = Event(cpu: nat, op: Op)

  function Init(x: Word, n: nat): State {
    State(x, [], seq(n, _ => Cpu(Idle, 0, 0)))
  }

  function Step(s: State, e: Event): State
    requires e.cpu < |s.cpus|
  {
    var me := s.cpus[e.cpu];
    match me.pc
    case Idle => s.(cpus := s.cpus[e.cpu := me.(pc := Start(e.op))])
    case Start(op) =>
      if Retries(op) then
        s.(cpus := s.cpus[e.cpu := me.(pc := Loaded(op, s.target), seen := |s.log|)])
      else
        State(Apply(op, s.target), s.log + [Entry(e.cpu, op, s.target)],
              s.cpus[e.cpu := me.(pc := Idle)])
    case Loaded(op, eax) =>
      s.(cpus := s.cpus[e.cpu := me.(pc := Computed(op, eax, Apply(op, eax)))])
    case Computed(op, eax, edx) =>
      if s.target == eax then
        State(edx, s.log + [Entry(e.cpu, op, eax)], s.cpus[e.cpu := me.(pc := Idle)])
      else
        s.(cpus := s.cpus[e.cpu := Cpu(Loaded(op, s.target), |s.log|, me.failures + 1)])
  }

  ghost predicate IsRun(n: nat, run: seq<Event>) {
    forall i :: 0 <= i < |run| ==> run[i].cpu < n
  }

  function After(x: Word, n: nat, run: seq<Event>): (s: State)
    requires IsRun(n, run)
    ensures |s.cpus| == n
  {
    if run == [] then Init(x, n)
    else Step(After(x, n, run[..|run| - 1]), run[|run| - 1])
  }

  /** The one-at-a-time reference: the word after performing `log` in order. */
  function Fold(x: Word, log: seq<Entry>): Word {
    if log == [] then x else Apply(log[|log| - 1].op, Fold(x, log[..|log| - 1]))
  }

  // ---------------------------------------------------------------------------
  // Linearizability
  // ---------------------------------------------------------------------------

  /** Every operation returned what the reference holds just before it. */
  ghost predicate Chained(x: Word, log: seq<Entry>) {
    forall i :: 0 <= i < |log| ==> log[i].returned == Fold(x, log[..i])
  }

  ghost predicate CpuInv(x: Word, log: seq<Entry>, cpu: Cpu, c: nat) {
    && cpu.failures <= cpu.seen <= |log|
    && (cpu.pc.Loaded? || cpu.pc.Computed? ==>
          && Retries(cpu.pc.op)
          && cpu.pc.eax == Fold(x, log[..cpu.seen])
          && (forall i :: cpu.seen <= i < |log| ==> log[i].cpu != c))
    && (cpu.pc.Computed? ==> cpu.pc.edx == Apply(cpu.pc.op, cpu.pc.eax))
  }

  ghost predicate Inv(x: Word, s: State) {
    && s.target == Fold(x, s.log)
    && Chained(x, s.log)
    && (forall c :: 0 <= c < |s.cpus| ==> CpuInv(x, s.log, s.cpus[c], c))
  }

  lemma {:induction false} LogGrows(x: Word, log: seq<Entry>, entry: Entry)
    requires Chained(x, log) && entry.returned == Fold(x, log)
    ensures Chained(x, log + [entry])
    ensures Fold(x, log + [entry]) == Apply(entry.op, entry.returned)
    ensures forall cpu: Cpu, c: nat :: c != entry.cpu && CpuInv(x, log, cpu, c) ==> CpuInv(x, log + [entry], cpu, c)
  {
    var longer := log + [entry];
    assert longer[..|log|] == log;
    forall i | 0 <= i <= |log| ensures longer[..i] == log[..i] {}
  }

  /** The step that ends a call enters it in the log and stores the value it computed. */
  lemma {:induction false} EndOfCall(x: Word, s: State, e: Event)
    requires e.cpu < |s.cpus| && Inv(x, s) && |Step(s, e).log| != |s.log|
    ensures var entry := Entry(e.cpu, s.cpus[e.cpu].pc.op, s.target);
            && s.cpus[e.cpu].pc != Idle
            && Step(s, e).log == s.log + [entry]
            && Step(s, e).target == Apply(entry.op, s.target)
            && Step(s, e).cpus == s.cpus[e.cpu := s.cpus[e.cpu].(pc := Idle)]
  {
    hide Apply, Fold;
    assert CpuInv(x, s.log, s.cpus[e.cpu], e.cpu);
  }

  lemma {:induction false} EndOfCallKeepsInv(x: Word, s: State, e: Event)
    requires e.cpu < |s.cpus| && Inv(x, s) && |Step(s, e).log| != |s.log|
    ensures Inv(x, Step(s, e))
  {
    EndOfCall(x, s, e);
    LogGrows(x, s.log, Entry(e.cpu, s.cpus[e.cpu].pc.op, s.target));
    hide Apply, Fold, Step;
    var s' := Step(s, e);
    forall c | 0 <= c < |s'.cpus| ensures CpuInv(x, s'.log, s'.cpus[c], c) {
      assert CpuInv(x, s.log, s.cpus[c], c);
    }
  }

  lemma {:induction false} StepKeepsInv(x: Word, s: State, e: Event)
    requires e.cpu < |s.cpus| && Inv(x, s)
    ensures Inv(x, Step(s, e))
  {
    if |Step(s, e).log| != |s.log| {
      EndOfCallKeepsInv(x, s, e);
    } else {
      hide Apply, Fold;
      assert s.log[..|s.log|] == s.log;
      var s' := Step(s, e);
      assert s'.log == s.log && s'.target == s.target;
      forall c | 0 <= c < |s'.cpus| ensures CpuInv(x, s'.log, s'.cpus[c], c) {
        assert CpuInv(x, s.log, s.cpus[c], c);
      }
    }
  }

  lemma {:induction false} RunKeepsInv(x: Word, n: nat, run: seq<Event>)
    requires IsRun(n, run)
    ensures Inv(x, After(x, n, run))
  {
    if run != [] {
      RunKeepsInv(x, n, run[..|run| - 1]);
      StepKeepsInv(x, After(x, n, run[..|run| - 1]), run[|run| - 1]);
    }
  }

  /** In every interleaving the completed operations form one order in which each returned
      the value left by its predecessor, and the word is what that order leaves. */
  lemma {:induction false} Linearizable(x: Word, n: nat, run: seq<Event>)
    requires IsRun(n, run)
    ensures var s := After(x, n, run);
            s.target == Fold(x, s.log) && Chained(x, s.log)
  {
    RunKeepsInv(x, n, run);
  }

  // ---------------------------------------------------------------------------
  // Calls, and the real time in which they happen
  // ---------------------------------------------------------------------------

  /** The step that ends a call enters it in the order, and no other step does. */
  lemma {:induction false} OneStep(x: Word, s: State, e: Event)
    requires e.cpu < |s.cpus| && Inv(x, s)
    ensures var s' := Step(s, e);
            && (forall c :: 0 <= c < |s.cpus| && c != e.cpu ==> s'.cpus[c] == s.cpus[c])
            && if s.cpus[e.cpu].pc != Idle && s'.cpus[e.cpu].pc == Idle then
                 s'.log == s.log + [Entry(e.cpu, s.cpus[e.cpu].pc.op, s.target)]
               else
                 s'.log == s.log
    ensures var pc, pc' := s.cpus[e.cpu].pc, Step(s, e).cpus[e.cpu].pc;
            pc' != Idle ==> pc'.op == if pc == Idle then e.op else pc.op
  {
    hide Fold, Apply;
    assert CpuInv(x, s.log, s.cpus[e.cpu], e.cpu);
  }

  /** The state before step i of a run. */
  function StateAt(x: Word, n: nat, run: seq<Event>, i: nat): (s: State)
    requires IsRun(n, run) && i <= |run|
    ensures |s.cpus| == n
  {
    After(x, n, run[..i])
  }

  lemma {:induction false} RunStep(x: Word, n: nat, run: seq<Event>, i: nat)
    requires IsRun(n, run) && i < |run|
    ensures StateAt(x, n, run, i + 1) == Step(StateAt(x, n, run, i), run[i])
    ensures Inv(x, StateAt(x, n, run, i))
  {
    assert run[..i + 1][..i] == run[..i];
    RunKeepsInv(x, n, run[..i]);
    hide Step, Inv;
  }

  /** What step i of a run does. */
  lemma {:induction false} StepAt(x: Word, n: nat, run: seq<Event>, i: nat)
    requires IsRun(n, run) && i < |run|
    ensures var s, s', e := StateAt(x, n, run, i), StateAt(x, n, run, i + 1), run[i];
            && (forall c :: 0 <= c < n && c != e.cpu ==> s'.cpus[c] == s.cpus[c])
            && (if s.cpus[e.cpu].pc != Idle && s'.cpus[e.cpu].pc == Idle then
                  s'.log == s.log + [Entry(e.cpu, s.cpus[e.cpu].pc.op, s.target)]
                else
                  s'.log == s.log)
            && (s'.cpus[e.cpu].pc != Idle ==>
                  s'.cpus[e.cpu].pc.op == if s.cpus[e.cpu].pc == Idle then e.op else s.cpus[e.cpu].pc.op)
  {
    RunStep(x, n, run, i);
    OneStep(x, StateAt(x, n, run, i), run[i]);
    hide StateAt, Step, Inv;
  }

  /** Nothing is taken out of the order, nor moved. */
  lemma {:induction false} OrderOnlyGrows(x: Word, n: nat, run: seq<Event>, i: nat, j: nat)
    requires IsRun(n, run) && i <= j <= |run|
    ensures StateAt(x, n, run, i).log <= StateAt(x, n, run, j).log
  {
    hide StateAt;
    if i < j {
      OrderOnlyGrows(x, n, run, i, j - 1);
      StepAt(x, n, run, j - 1);
    }
  }

  /** The CPU of step i is within a call before that step. */
  predicate Within(x: Word, n: nat, run: seq<Event>, c: nat, i: nat)
    requires IsRun(n, run) && i <= |run| && c < n
  {
    StateAt(x, n, run, i).cpus[c].pc != Idle
  }

  /** A call that begins with step k and ends with step m. */
  ghost predicate IsCall(x: Word, n: nat, run: seq<Event>, k: nat, m: nat)
    requires IsRun(n, run)
  {
    && k < m < |run| && run[k].cpu == run[m].cpu
    && !Within(x, n, run, run[k].cpu, k) && !Within(x, n, run, run[k].cpu, m + 1)
    && forall i :: k < i <= m ==> Within(x, n, run, run[k].cpu, i)
  }

  lemma {:induction false} CallKeepsItsOperation(x: Word, n: nat, run: seq<Event>, k: nat, m: nat, i: nat)
    requires IsRun(n, run) && IsCall(x, n, run, k, m) && k < i <= m
    ensures var pc := StateAt(x, n, run, i).cpus[run[k].cpu].pc; pc != Idle && pc.op == run[k].op
  {
    assert Within(x, n, run, run[k].cpu, i);
    if i > k + 1 { CallKeepsItsOperation(x, n, run, k, m, i - 1); }
    StepAt(x, n, run, i - 1);
    hide StateAt;
  }

  /** Where the call that ends with step m is entered. */
  function Index(x: Word, n: nat, run: seq<Event>, m: nat): nat
    requires IsRun(n, run) && m <= |run|
  {
    |StateAt(x, n, run, m).log|
  }

  /** A call is entered in the order with its CPU, its own operation and the value it found, by
      the very step that ends it. */
  lemma {:induction false} CallIsEntered(x: Word, n: nat, run: seq<Event>, k: nat, m: nat)
    requires IsRun(n, run) && IsCall(x, n, run, k, m)
    ensures Index(x, n, run, m) < |After(x, n, run).log| && Index(x, n, run, m + 1) == Index(x, n, run, m) + 1
    ensures After(x, n, run).log[Index(x, n, run, m)] == Entry(run[k].cpu, run[k].op, StateAt(x, n, run, m).target)
  {
    CallKeepsItsOperation(x, n, run, k, m, m);
    assert run[..|run|] == run && StateAt(x, n, run, |run|) == After(x, n, run);
    hide StateAt, After;
    StepAt(x, n, run, m);
    OrderOnlyGrows(x, n, run, m + 1, |run|);
  }

  /** The order respects real time: a call that ends before another begins comes before it. */
  lemma {:induction false} RealTimeIsRespected(x: Word, n: nat, run: seq<Event>, k1: nat, m1: nat, k2: nat, m2: nat)
    requires IsRun(n, run) && IsCall(x, n, run, k1, m1) && IsCall(x, n, run, k2, m2) && m1 < k2
    ensures Index(x, n, run, m1) < Index(x, n, run, m2) < |After(x, n, run).log|
  {
    CallIsEntered(x, n, run, k1, m1);
    CallIsEntered(x, n, run, k2, m2);
    OrderOnlyGrows(x, n, run, m1 + 1, m2);
    hide StateAt, After, IsCall;
  }

  /** Where the call that is going on began. */
  lemma {:induction false} Beginning(x: Word, n: nat, run: seq<Event>, c: nat, m: nat) returns (k: nat)
    requires IsRun(n, run) && c < n && m <= |run| && Within(x, n, run, c, m)
    ensures k < m && run[k].cpu == c && !Within(x, n, run, c, k)
    ensures forall i :: k < i <= m ==> Within(x, n, run, c, i)
  {
    assert run[..0] == [];
    if m == 0 {
      assert false;
    } else {
      hide StateAt;
      StepAt(x, n, run, m - 1);
      if Within(x, n, run, c, m - 1) {
        k := Beginning(x, n, run, c, m - 1);
      } else {
        k := m - 1;
      }
    }
  }

  /** Nothing else is in the order: every entry is that of one call of the run. */
  lemma {:induction false} EveryEntryIsACall(x: Word, n: nat, run: seq<Event>, index: nat, j: nat)
    returns (k: nat, m: nat)
    requires IsRun(n, run) && j <= |run| && index < Index(x, n, run, j)
    ensures IsCall(x, n, run, k, m) && m < j && Index(x, n, run, m) == index
  {
    assert run[..0] == [];
    if j == 0 {
      assert false;
    } else if index < Index(x, n, run, j - 1) {
      k, m := EveryEntryIsACall(x, n, run, index, j - 1);
    } else {
      m := j - 1;
      hide StateAt;
      StepAt(x, n, run, m);
      k := Beginning(x, n, run, run[m].cpu, m);
    }
  }

  /** A compare-and-exchange fails only if another CPU completed an operation since this
      CPU last loaded the word. */
  lemma {:induction false} FailureMeansAnotherSucceeded(x: Word, n: nat, run: seq<Event>, c: nat) returns (i: nat)
    requires IsRun(n, run) && c < n
    requires var s := After(x, n, run);
             s.cpus[c].pc.Computed? && s.target != s.cpus[c].pc.eax
    ensures var s := After(x, n, run);
            s.cpus[c].seen <= i < |s.log| && s.log[i].cpu != c
  {
    RunKeepsInv(x, n, run);
    var s := After(x, n, run);
    assert s.log[..|s.log|] == s.log;
    assert CpuInv(x, s.log, s.cpus[c], c);
    i := s.cpus[c].seen;
  }

  /** So no CPU ever fails more often than operations have completed. */
  lemma {:induction false} FailuresBoundedByCompletions(x: Word, n: nat, run: seq<Event>, c: nat)
    requires IsRun(n, run) && c < n
    ensures After(x, n, run).cpus[c].failures <= |After(x, n, run).log|
  {
    RunKeepsInv(x, n, run);
    assert CpuInv(x, After(x, n, run).log, After(x, n, run).cpus[c], c);
  }

  // ---------------------------------------------------------------------------
  // What the single order gives callers
  // ---------------------------------------------------------------------------

  lemma {:induction false} WrapOnce(a: int, b: int)
    ensures (a % WORDS + b) % WORDS == (a + b) % WORDS
  {
    var q := a / WORDS;
    assert a % WORDS + b == (a + b) - WORDS * q;
    SameResidue(a % WORDS + b, a + b, -q);
  }

  lemma {:induction false} SameResidue(a: int, b: int, q: int)
    requires a == b + WORDS * q
    ensures a % WORDS == b % WORDS
  {
    var p, r := b / WORDS, b % WORDS;
    assert a == WORDS * (p + q) + r;
  }

  ghost predicate AllAdds(log: seq<Entry>) {
    forall i :: 0 <= i < |log| ==> log[i].op.Add?
  }

  function Total(log: seq<Entry>): int
    requires AllAdds(log)
  {
    if log == [] then 0 else Total(log[..|log| - 1]) + log[|log| - 1].op.value
  }

  lemma {:induction false} FoldOfAdds(x: Word, log: seq<Entry>)
    requires AllAdds(log)
    ensures Fold(x, log) == (x + Total(log)) % WORDS
  {
    if log != [] {
      hide OrBits, AndBits;
      FoldOfAdds(x, log[..|log| - 1]);
      WrapOnce(x + Total(log[..|log| - 1]), log[|log| - 1].op.value);
    }
  }

  /** Concurrent adds lose nothing: whatever the schedule, the word gains their sum. */
  lemma {:induction false} AddsLoseNothing(x: Word, n: nat, run: seq<Event>)
    requires IsRun(n, run) && AllAdds(After(x, n, run).log)
    ensures After(x, n, run).target == (x + Total(After(x, n, run).log)) % WORDS
  {
    RunKeepsInv(x, n, run);
    FoldOfAdds(x, After(x, n, run).log);
  }

  /** Bit k of a pattern. */
  predicate Bit(x: nat, k: nat) {
    x / TwoTo(k) % 2 == 1
  }

  /** A higher bit is a bit of the half. */
  lemma {:induction false} BitOfHalf(x: nat, k: nat)
    requires k > 0
    ensures Bit(x, k) <==> Bit(x / 2, k - 1)
  {
    var p := TwoTo(k - 1);
    var q, h := x / 2 / p, x / 2 % p;
    assert 2 * (p * q + h) + x % 2 == (2 * p) * q + (2 * h + x % 2);
    QuotientIs(2 * p, x / (2 * p), x % (2 * p), q, 2 * h + x % 2);
  }

  lemma {:induction false} LowestBit(x: nat)
    ensures Bit(x, 0) <==> x % 2 == 1
  {
  }

  lemma {:induction false} BitsOfOr(x: nat, y: nat, n: nat, k: nat)
    requires k < n
    ensures Bit(OrOf(x, y, n), k) <==> Bit(x, k) || Bit(y, k)
  {
    var r := OrOf(x, y, n);
    assert r / 2 == OrOf(x / 2, y / 2, n - 1);
    assert r % 2 == if x % 2 == 1 || y % 2 == 1 then 1 else 0;
    hide Bit, OrOf;
    if k == 0 {
      LowestBit(x);
      LowestBit(y);
      LowestBit(r);
    } else {
      BitOfHalf(x, k);
      BitOfHalf(y, k);
      BitOfHalf(r, k);
      BitsOfOr(x / 2, y / 2, n - 1, k - 1);
    }
  }

  lemma {:induction false} BitsOfAnd(x: nat, y: nat, n: nat, k: nat)
    requires k < n
    ensures Bit(AndOf(x, y, n), k) <==> Bit(x, k) && Bit(y, k)
  {
    var r := AndOf(x, y, n);
    assert r / 2 == AndOf(x / 2, y / 2, n - 1);
    assert r % 2 == if x % 2 == 1 && y % 2 == 1 then 1 else 0;
    hide Bit, AndOf;
    if k == 0 {
      LowestBit(x);
      LowestBit(y);
      LowestBit(r);
    } else {
      BitOfHalf(x, k);
      BitOfHalf(y, k);
      BitOfHalf(r, k);
      BitsOfAnd(x / 2, y / 2, n - 1, k - 1);
    }
  }

  /** Some entry has bit k in its value; every entry has. */
  ghost predicate SomeBit(log: seq<Entry>, k: nat)
    requires forall i :: 0 <= i < |log| ==> !log[i].op.DecTest?
  {
    exists i :: 0 <= i < |log| && Bit(log[i].op.value, k)
  }

  ghost predicate EveryBit(log: seq<Entry>, k: nat)
    requires forall i :: 0 <= i < |log| ==> !log[i].op.DecTest?
  {
    forall i :: 0 <= i < |log| ==> Bit(log[i].op.value, k)
  }

  lemma {:induction false} FoldOfOrs(x: Word, log: seq<Entry>, k: nat)
    requires k < 32 && forall i :: 0 <= i < |log| ==> log[i].op.Or?
    ensures Bit(Fold(x, log), k) <==> Bit(x, k) || SomeBit(log, k)
  {
    hide Bit, OrOf;
    if log != [] {
      var before, v := log[..|log| - 1], log[|log| - 1].op.value;
      FoldOfOrs(x, before, k);
      BitsOfOr(Fold(x, before), v, 32, k);
      if SomeBit(before, k) {
        var i :| 0 <= i < |before| && Bit(before[i].op.value, k);
        assert log[i] == before[i];
      }
      if SomeBit(log, k) && !Bit(v, k) {
        var i :| 0 <= i < |log| && Bit(log[i].op.value, k);
        assert before[i] == log[i];
      }
    }
  }

  lemma {:induction false} FoldOfAnds(x: Word, log: seq<Entry>, k: nat)
    requires k < 32 && forall i :: 0 <= i < |log| ==> log[i].op.And?
    ensures Bit(Fold(x, log), k) <==> Bit(x, k) && EveryBit(log, k)
  {
    hide Bit, AndOf;
    if log != [] {
      var before, v := log[..|log| - 1], log[|log| - 1].op.value;
      FoldOfAnds(x, before, k);
      BitsOfAnd(Fold(x, before), v, 32, k);
      assert EveryBit(log, k) <==> EveryBit(before, k) && Bit(v, k);
    }
  }

  /** After concurrent ors exactly the bits are set that were, or that some of them set. */
  lemma {:induction false} OrsSetTheirBits(x: Word, n: nat, run: seq<Event>, k: nat)
    requires k < 32 && IsRun(n, run)
    requires forall i :: 0 <= i < |After(x, n, run).log| ==> After(x, n, run).log[i].op.Or?
    ensures Bit(After(x, n, run).target, k) <==> Bit(x, k) || SomeBit(After(x, n, run).log, k)
  {
    Linearizable(x, n, run);
    FoldOfOrs(x, After(x, n, run).log, k);
  }

  /** After concurrent ands exactly the bits are set that were, and that all of them leave. */
  lemma {:induction false} AndsKeepCommonBits(x: Word, n: nat, run: seq<Event>, k: nat)
    requires k < 32 && IsRun(n, run)
    requires forall i :: 0 <= i < |After(x, n, run).log| ==> After(x, n, run).log[i].op.And?
    ensures Bit(After(x, n, run).target, k) <==> Bit(x, k) && EveryBit(After(x, n, run).log, k)
  {
    Linearizable(x, n, run);
    FoldOfAnds(x, After(x, n, run).log, k);
  }

  /** The word just after entry i of the order: what the next operation found, or what is left. */
  function LeftBy(s: State, i: nat): Word
    requires i < |s.log|
  {
    if i + 1 < |s.log| then s.log[i + 1].returned else s.target
  }

  lemma {:induction false} LeftByApply(x: Word, n: nat, run: seq<Event>, i: nat)
    requires IsRun(n, run) && i < |After(x, n, run).log|
    ensures var s := After(x, n, run);
            LeftBy(s, i) == Apply(s.log[i].op, s.log[i].returned)
  {
    Linearizable(x, n, run);
    var log := After(x, n, run).log;
    hide Apply;
    assert log[..i + 1][..i] == log[..i];
    if i + 1 == |log| { assert log[..i + 1] == log; }
  }

  /** Whatever else runs, every completed operation leaves, of the value it returned, what its
      name says. */
  lemma {:induction false} EachHasItsEffect(x: Word, n: nat, run: seq<Event>, i: nat, k: nat)
    requires IsRun(n, run) && i < |After(x, n, run).log| && k < 32
    ensures var s := After(x, n, run);
            var was, now := s.log[i].returned, LeftBy(s, i);
            match s.log[i].op
            case Add(v) => now == was + v || now == was + v - WORDS
            case Or(v) => Bit(now, k) <==> Bit(was, k) || Bit(v, k)
            case And(v) => Bit(now, k) <==> Bit(was, k) && Bit(v, k)
            case Xchg(v) => now == v
            case DecTest => now == was - 1 || now == was - 1 + WORDS
  {
    LeftByApply(x, n, run, i);
    var was, op := After(x, n, run).log[i].returned, After(x, n, run).log[i].op;
    hide After, Bit, OrOf, AndOf;
    match op
    case Or(v) => BitsOfOr(was, v, 32, k);
    case And(v) => BitsOfAnd(was, v, 32, k);
    case _ =>
  }

  lemma {:induction false} FoldOfDecs(x: Word, log: seq<Entry>)
    requires forall i :: 0 <= i < |log| ==> log[i].op == DecTest
    ensures Fold(x, log) == (x - |log|) % WORDS
  {
    if log != [] {
      hide OrBits, AndBits;
      FoldOfDecs(x, log[..|log| - 1]);
      WrapOnce(x - |log| + 1, WORDS - 1);
      SameResidue(x - |log| + WORDS, x - |log|, 1);
    }
  }

  lemma {:induction false} DecrementInOrder(count: Word, log: seq<Entry>, i: nat)
    requires 0 < count < SIGN && Chained(count, log) && i < count && i < |log|
    requires forall k :: 0 <= k < |log| ==> log[k].op == DecTest
    ensures DecReports(log[i].returned) <==> i == count - 1
  {
    FoldOfDecs(count, log[..i]);
    assert log[i].returned == count - i;
    hide Fold;
  }

  /** Of the first `count` decrements from a positive signed `count`, however they
      interleave, exactly the last one in the order reports true. */
  lemma {:induction false} OneDecrementReportsZero(count: Word, n: nat, run: seq<Event>, i: nat)
    requires 0 < count < SIGN && IsRun(n, run)
    requires forall k :: 0 <= k < |After(count, n, run).log| ==> After(count, n, run).log[k].op == DecTest
    requires i < count && i < |After(count, n, run).log|
    ensures DecReports(After(count, n, run).log[i].returned) <==> i == count - 1
  {
    RunKeepsInv(count, n, run);
    hide After, DecReports;
    DecrementInOrder(count, After(count, n, run).log, i);
  }

  // ---------------------------------------------------------------------------
  // The word, updated in place
  // ---------------------------------------------------------------------------

  class Cell {
    var target: Word
    var cpus: seq<Cpu>
    var log: seq<Entry>

    function View(): State
      reads this
    {
      State(target, log, cpus)
    }

    constructor (x: Word, n: nat)
      ensures View() == Init(x, n)
    {
      target, log := x, [];
      cpus := seq(n, _ => Cpu(Idle, 0, 0));
    }

    method Goto(c: nat, cpu: Cpu)
      requires c < |cpus|
      modifies this`cpus
      ensures cpus == old(cpus)[c := cpu]
    {
      cpus := cpus[c := cpu];
    }

    /** The next memory access of one CPU. */
    method Access(e: Event)
      requires e.cpu < |cpus|
      modifies this
      ensures View() == Step(old(View()), e)
    {
      var c, me := e.cpu, cpus[e.cpu];
      match me.pc {
        case Idle => Goto(c, me.(pc := Start(e.op)));
        case Start(op) =>
          if Retries(op) {
            Goto(c, me.(pc := Loaded(op, target), seen := |log|));
          } else {
            log := log + [Entry(c, op, target)];
            target := Apply(op, target);
            Goto(c, me.(pc := Idle));
          }
        case Loaded(op, eax) => Goto(c, me.(pc := Computed(op, eax, Apply(op, eax))));
        case Computed(op, eax, edx) =>
          if target == eax {
            target := edx;
            log := log + [Entry(c, op, eax)];
            Goto(c, me.(pc := Idle));
          } else {
            Goto(c, Cpu(Loaded(op, target), |log|, me.failures + 1));
          }
      }
    }

    /** A whole schedule, in place: the word ends as the one-at-a-time reference leaves it. */
    method Perform(x: Word, schedule: seq<Event>)
      requires View() == Init(x, |cpus|) && IsRun(|cpus|, schedule)
      modifies this
      ensures |cpus| == |old(cpus)| && View() == After(x, |cpus|, schedule)
      ensures target == Fold(x, log) && Chained(x, log)
    {
      for i := 0 to |schedule|
        invariant |cpus| == |old(cpus)|
        invariant View() == After(x, |cpus|, schedule[..i])
      {
        assert schedule[..i + 1][..i] == schedule[..i];
        Access(schedule[i]);
      }
      assert schedule[..|schedule|] == schedule;
      Linearizable(x, |cpus|, schedule);
    }
  }
}
