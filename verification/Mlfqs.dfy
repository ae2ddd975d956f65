/** The multilevel feedback queue arithmetic of threads/fixed-point.h and threads/thread.c:
    a machine driven by timer ticks, on 32-bit integers. */
module Mlfqs {
  import opened Common

  const F := 16384              // F_BITS, the fixed-point one
  const TIMER_FREQ := 100

  /** What a result is stored in: the int of the code, or as many bits as it takes. */
  datatype Word = Bits32 | Unbounded

  function Store(w: Word, n: int): int {
    if w.Bits32? then Int32(n) else n
  }

  predicate Fits(n: int) {
    -0x8000_0000 <= n < 0x8000_0000
  }

  lemma FitsExactly(w: Word, n: int)
    requires Fits(n)
    ensures Store(w, n) == n
  {
  }

  // ---- threads/fixed-point.h -------------------------------------------------------------

  /** Division as C does it, toward zero.  A divisor of zero traps; no run gets there. */
  function Quot(n: int, d: int): int {
    if d == 0 then 0 else if n >= 0 then n / d else -(-n / d)
  }

  function IntToFp(w: Word, x: int): int {
    Store(w, x * F)
  }

  function FpRound(w: Word, x: int): int {
    if x >= 0 then Quot(Store(w, x + F / 2), F) else Quot(Store(w, x - F / 2), F)
  }

  function FpMul(w: Word, a: int, b: int): int {
    Store(w, Quot(a * b, F))
  }

  function FpDiv(w: Word, a: int, b: int): int {
    Store(w, Quot(a * F, b))
  }

  function FpIntAdd(w: Word, a: int, b: int): int {
    Store(w, a + Store(w, b * F))
  }

  // ---- threads/thread.c ------------------------------------------------------------------

  type Tid = nat

  datatype Task = Task(nice: int, recentCpu: int, priority: int)

  /** The multiplier of update_load_avg(), 59/60, and its weight of a ready thread, 1/60. */
  function Keep(w: Word): int {
    FpDiv(w, IntToFp(w, 59), IntToFp(w, 60))
  }

  function Weight(w: Word): int {
    Quot(IntToFp(w, 1), 60)
  }

  /** update_load_avg(), cnt threads being ready or running */
  function NextLoad(w: Word, load: int, cnt: nat): int {
    Store(w, FpMul(w, Keep(w), load) + Store(w, Weight(w) * cnt))
  }

  function Divisor(w: Word, load: int): int {
    Store(w, Store(w, load * 2) + IntToFp(w, 1))
  }

  /** thread_update_recent_cpu() */
  function Decayed(w: Word, load: int, t: Task): Task {
    t.(recentCpu := FpIntAdd(w, FpMul(w, FpDiv(w, Store(w, load * 2), Divisor(w, load)), t.recentCpu), t.nice))
  }

  function Clamp(p: int): int {
    if p > PRI_MAX then PRI_MAX else if p < PRI_MIN then PRI_MIN else p
  }

  /** thread_update_priority() */
  function Prioritized(w: Word, t: Task): Task {
    t.(priority := Clamp(Store(w, Store(w, PRI_MAX - FpRound(w, Quot(t.recentCpu, 4))) - Store(w, 2 * t.nice))))
  }

  /** thread_get_load_avg() of a load average and thread_get_recent_cpu() of a recent_cpu */
  function Hundredfold(w: Word, x: int): int {
    FpRound(w, Store(w, x * 100))
  }

  // ---- The machine -----------------------------------------------------------------------

  datatype State = State(tasks: map<Tid, Task>, idle: Tid, initial: Tid, load: int, ticks: nat)

  datatype Event =
    | ETick(current: Tid, ready: nat)       // the timer, `ready` threads being in the ready heap
    | ESetNice(current: Tid, nice: int)
    | ECreate(current: Tid, tid: Tid, priority: int)
    | EExit(current: Tid)

  /** thread_foreach() of thread_update_priority() and of thread_update_recent_cpu() */
  function AllPrioritized(w: Word, tasks: map<Tid, Task>): map<Tid, Task> {
    map t | t in tasks :: Prioritized(w, tasks[t])
  }

  function AllDecayed(w: Word, tasks: map<Tid, Task>, idle: Tid, load: int): map<Tid, Task> {
    map t | t in tasks :: if t == idle then tasks[t] else Decayed(w, load, tasks[t])
  }

  /** The running thread is charged a tick. */
  function Charged(w: Word, tasks: map<Tid, Task>, idle: Tid, current: Tid): map<Tid, Task> {
    if current == idle || current !in tasks then tasks
    else tasks[current := tasks[current].(recentCpu := FpIntAdd(w, tasks[current].recentCpu, 1))]
  }

  function Count(s: State, current: Tid, ready: nat): nat {
    if current == s.idle then ready else ready + 1
  }

  /** timer_interrupt() with thread_tick(), thread_mlfqs being set */
  function Tick(w: Word, s: State, current: Tid, ready: nat): State {
    var ticks := s.ticks + 1;
    var charged := Charged(w, s.tasks, s.idle, current);
    var tasks := if ticks % 4 == 0 then AllPrioritized(w, charged) else charged;
    if ticks % TIMER_FREQ == 0 then
      var load := NextLoad(w, s.load, Count(s, current, ready));
      s.(tasks := AllDecayed(w, tasks, s.idle, load), load := load, ticks := ticks)
    else
      s.(tasks := tasks, ticks := ticks)
  }

  /** What thread_create() makes of the two thread records: the creator's priority is
      recomputed, the new thread's is the argument until the next recomputation. */
  function Created(w: Word, s: State, current: Tid, tid: Tid, priority: int): State
    requires current in s.tasks
  {
    var cur := s.tasks[current];
    var t := if current == s.initial then Task(0, 0, priority) else Task(cur.nice, cur.recentCpu, priority);
    s.(tasks := s.tasks[tid := t][current := Prioritized(w, cur)])
  }

  ghost predicate Enabled(s: State, e: Event) {
    match e
    case ETick(current, _) => current in s.tasks
    case ESetNice(current, nice) => current in s.tasks && current != s.idle && -20 <= nice <= 20
    case ECreate(current, tid, priority) =>
      && current in s.tasks && current != s.idle && tid !in s.tasks && tid != s.initial && PRI_MIN <= priority <= PRI_MAX
    case EExit(current) => current in s.tasks && current != s.idle
  }

  function Step(w: Word, s: State, e: Event): State
    requires Enabled(s, e)
  {
    match e
    case ETick(current, ready) => Tick(w, s, current, ready)
    case ESetNice(current, nice) => s.(tasks := s.tasks[current := Prioritized(w, s.tasks[current].(nice := nice))])
    case ECreate(current, tid, priority) => Created(w, s, current, tid, priority)
    case EExit(current) => s.(tasks := s.tasks - {current})
  }

  ghost predicate StepsAt(w: Word, trace: seq<State>, events: seq<Event>, i: nat)
    requires i < |events| < |trace|
  {
    Enabled(trace[i], events[i]) && trace[i + 1] == Step(w, trace[i], events[i])
  }

  /** The main thread and the idle thread, before the first tick. */
  ghost predicate Boot(s: State) {
    && s.idle != s.initial && s.tasks.Keys == {s.idle, s.initial} && s.load == 0 && s.ticks == 0
    && forall t :: t in s.tasks ==> s.tasks[t].nice == 0 && s.tasks[t].recentCpu == 0 && PRI_MIN <= s.tasks[t].priority <= PRI_MAX
  }

  ghost predicate IsRun(w: Word, trace: seq<State>, events: seq<Event>) {
    && |trace| == |events| + 1 && Boot(trace[0])
    && forall i :: 0 <= i < |events| ==> StepsAt(w, trace, events, i)
  }

  /** No more than n threads are ready or running when the timer looks. */
  ghost predicate AtMost(s: State, e: Event, n: nat) {
    e.ETick? ==> Count(s, e.current, e.ready) <= n
  }

  // ---- The words on the way ------------------------------------------------------------------

  /** Every 32-bit value and every 64-bit value of a computation is in range. */
  ghost predicate AllFit(words: seq<int>, wide: seq<int>) {
    && (forall i :: 0 <= i < |words| ==> Fits(words[i]))
    && (forall i :: 0 <= i < |wide| ==> -0x8000_0000_0000_0000 <= wide[i] < 0x8000_0000_0000_0000)
  }

  /** The values update_load_avg() computes on its way, on unbounded integers. */
  ghost predicate LoadFits(load: int, cnt: nat) {
    AllFit([59 * F, 60 * F, Keep(Unbounded), F, Weight(Unbounded), FpMul(Unbounded, Keep(Unbounded), load),
            Weight(Unbounded) * cnt, NextLoad(Unbounded, load, cnt)],
           [59 * F * F, Keep(Unbounded) * load])
  }

  /** thread_update_recent_cpu() */
  ghost predicate DecayFits(load: int, t: Task) {
    var d := Divisor(Unbounded, load);
    var c := FpDiv(Unbounded, load * 2, d);
    AllFit([load * 2, F, d, c, FpMul(Unbounded, c, t.recentCpu), t.nice * F, Decayed(Unbounded, load, t).recentCpu],
           [load * 2 * F, c * t.recentCpu])
  }

  /** The charge of a tick */
  ghost predicate ChargeFits(cpu: int) {
    AllFit([F, FpIntAdd(Unbounded, cpu, 1)], [])
  }

  /** thread_update_priority() */
  ghost predicate PriorityFits(t: Task) {
    var q := Quot(t.recentCpu, 4);
    AllFit([q, if q >= 0 then q + F / 2 else q - F / 2, FpRound(Unbounded, q), PRI_MAX - FpRound(Unbounded, q), 2 * t.nice,
            PRI_MAX - FpRound(Unbounded, q) - 2 * t.nice], [])
  }

  ghost predicate AllPrioritiesFit(tasks: map<Tid, Task>) {
    forall t :: t in tasks ==> PriorityFits(tasks[t])
  }

  ghost predicate AllDecaysFit(tasks: map<Tid, Task>, idle: Tid, load: int) {
    forall t :: t in tasks && t != idle ==> DecayFits(load, tasks[t])
  }

  ghost predicate TickFits(s: State, current: Tid, ready: nat) {
    var charged := Charged(Unbounded, s.tasks, s.idle, current);
    var tasks := if (s.ticks + 1) % 4 == 0 then AllPrioritized(Unbounded, charged) else charged;
    && (current != s.idle && current in s.tasks ==> ChargeFits(s.tasks[current].recentCpu))
    && ((s.ticks + 1) % 4 == 0 ==> AllPrioritiesFit(charged))
    && ((s.ticks + 1) % TIMER_FREQ == 0 ==>
          && LoadFits(s.load, Count(s, current, ready))
          && AllDecaysFit(tasks, s.idle, NextLoad(Unbounded, s.load, Count(s, current, ready))))
  }

  /** No computation of the step overflows. */
  ghost predicate StepFits(s: State, e: Event)
    requires Enabled(s, e)
  {
    match e
    case ETick(current, ready) => TickFits(s, current, ready)
    case ESetNice(current, nice) => PriorityFits(s.tasks[current].(nice := nice))
    case ECreate(current, _, _) => PriorityFits(s.tasks[current])
    case EExit(_) => true
  }

  // ---- The load average --------------------------------------------------------------------

  lemma KeepIs(w: Word)
    ensures Keep(w) == 16110 && Weight(w) == 273
  {
  }

  /** One sample: no word overflows, and the bound is kept. */
  lemma NextLoadIs(w: Word, load: int, cnt: nat, n: nat)
    requires 0 <= load <= F * n && cnt <= n <= 2048
    ensures NextLoad(w, load, cnt) == 16110 * load / F + 273 * cnt
    ensures 0 <= NextLoad(w, load, cnt) <= F * n && LoadFits(load, cnt)
  {
    KeepIs(w);
    KeepIs(Unbounded);
    FitsExactly(w, 16110 * load / F);
    FitsExactly(w, 273 * cnt);
    FitsExactly(w, 16110 * load / F + 273 * cnt);
  }

  function LoadAfter(samples: seq<nat>): int {
    if samples == [] then 0 else NextLoad(Bits32, LoadAfter(samples[..|samples| - 1]), samples[|samples| - 1])
  }

  /** The load average of the documentation, in units of 2^-14, without rounding. */
  ghost function ExactLoad(samples: seq<nat>): real {
    if samples == [] then 0.0
    else (59.0 * ExactLoad(samples[..|samples| - 1]) + 16384.0 * samples[|samples| - 1] as real) / 60.0
  }

  /** Over any number of samples the load average stays in range, never exceeds the exact
      value and never lags it by more than 60 (n + 1) units. */
  lemma {:induction false} LoadTracksExact(samples: seq<nat>, n: nat)
    requires n <= 2048 && forall i :: 0 <= i < |samples| ==> samples[i] <= n
    ensures 0 <= LoadAfter(samples) <= F * n
    ensures LoadAfter(samples) as real <= ExactLoad(samples) <= (LoadAfter(samples) + 60 * (n + 1)) as real
    decreases |samples|
  {
    if samples != [] {
      var before, cnt := samples[..|samples| - 1], samples[|samples| - 1];
      LoadTracksExact(before, n);
      var load := LoadAfter(before);
      NextLoadIs(Bits32, load, cnt, n);
      LagStep(load, cnt, n);
    }
  }

  /** One sample loses at most n + 1 units. */
  lemma LagStep(load: int, cnt: nat, n: nat)
    requires 0 <= load <= F * n && cnt <= n
    ensures var next := 16110 * load / F + 273 * cnt;
            next * 60 <= 59 * load + F * cnt <= next * 60 + 60 * (n + 1)
  {
    var q := 16110 * load / F;
    assert q * F <= 16110 * load < (q + 1) * F;
  }

  // ---- recent_cpu --------------------------------------------------------------------------

  ghost predicate Nice(nice: int) {
    -20 <= nice <= 20
  }

  /** The range of recent_cpu, k ticks into a second, when at most n threads compete. */
  ghost predicate InRange(n: nat, k: nat, cpu: int) {
    -F * (40 * n + 20) <= cpu <= F * (240 * n + 20 + k)
  }

  /** The decay multiplier 2 load / (2 load + 1) */
  function Coefficient(load: nat): nat {
    2 * load * F / (2 * load + F)
  }

  lemma CoefficientBelowOne(load: nat, c: int)
    requires c * (2 * load + F) <= 2 * load * F
    ensures c < F
  {
    MulLe(F, c, 2 * load + F);
  }

  /** It stays below 2n / (2n + 1) while the load stays below n. */
  lemma CoefficientBelow(load: nat, n: nat)
    requires load <= F * n
    ensures Coefficient(load) < F && Coefficient(load) * (2 * n + 1) <= 2 * n * F
  {
    var c, d := Coefficient(load), 2 * load + F;
    assert c * d <= 2 * load * F;
    CoefficientBelowOne(load, c);
    MulLe(2 * load, 2 * n * F, F - c);
    assert c * F <= 2 * load * (F - c);
    assert 2 * n * F * (F - c) == F * (2 * n * (F - c));
    assert c <= 2 * n * (F - c);
  }

  lemma QuotBetween(x: int, lo: int, hi: int)
    requires lo <= 0 <= hi && F * lo <= x <= F * hi
    ensures lo <= Quot(x, F) <= hi
  {
  }

  /** The decay takes what a whole second may add, and the nice value may add that again. */
  lemma DecayRange(c: nat, cpu: int, nice: int, n: nat)
    requires c < F && c * (2 * n + 1) <= 2 * n * F && InRange(n, TIMER_FREQ, cpu) && Nice(nice)
    ensures -40 * n * F <= Quot(c * cpu, F) <= 240 * n * F
    ensures InRange(n, 0, Quot(c * cpu, F) + nice * F)
  {
    MulLe(cpu, F * (240 * n + 120), c);
    MulLe(-F * (40 * n + 20), cpu, c);
    var m := c * (2 * n + 1);
    assert F * (240 * n + 120) * c == F * 120 * m;
    assert -F * (40 * n + 20) * c == -F * 20 * m;
    QuotBetween(c * cpu, -40 * n * F, 240 * n * F);
  }

  lemma CoefficientIs(w: Word, load: int, n: nat)
    requires 0 <= load <= F * n && n <= 2048
    ensures Divisor(w, load) == 2 * load + F && FpDiv(w, Store(w, load * 2), Divisor(w, load)) == Coefficient(load)
  {
    FitsExactly(w, load * 2);
    FitsExactly(w, F);
    FitsExactly(w, load * 2 + F);
    CoefficientBelow(load, n);
    FitsExactly(w, Coefficient(load));
  }

  lemma DecayWide(c: nat, cpu: int)
    requires c < F && Fits(cpu)
    ensures -0x8000_0000 * F <= c * cpu <= 0x8000_0000 * F
  {
    MulLe(cpu, 0x8000_0000, c);
    MulLe(-0x8000_0000, cpu, c);
  }

  lemma DecayedFits(load: int, t: Task, n: nat)
    requires 0 <= load <= F * n && n <= 545 && Nice(t.nice) && InRange(n, TIMER_FREQ, t.recentCpu)
    ensures DecayFits(load, t)
  {
    var c, u := Coefficient(load), Unbounded;
    assert Divisor(u, load) == 2 * load + F && FpDiv(u, load * 2, Divisor(u, load)) == c < F by {
      CoefficientIs(u, load, n);
      CoefficientBelow(load, n);
    }
    assert -40 * n * F <= Quot(c * t.recentCpu, F) <= 240 * n * F by {
      CoefficientBelow(load, n);
      DecayRange(c, t.recentCpu, t.nice, n);
    }
    DecayWide(c, t.recentCpu);
    hide Coefficient, Divisor, FpDiv, Quot;
    assert FpMul(u, c, t.recentCpu) == Quot(c * t.recentCpu, F);
    assert Decayed(u, load, t).recentCpu == Quot(c * t.recentCpu, F) + t.nice * F;
  }

  /** thread_update_recent_cpu() overflows nowhere and brings the value back into range. */
  lemma DecayedIs(w: Word, load: int, t: Task, n: nat)
    requires 0 <= load <= F * n && n <= 545 && Nice(t.nice) && InRange(n, TIMER_FREQ, t.recentCpu)
    ensures Decayed(w, load, t) == t.(recentCpu := Quot(Coefficient(load) * t.recentCpu, F) + t.nice * F)
    ensures InRange(n, 0, Decayed(w, load, t).recentCpu) && DecayFits(load, t)
  {
    DecayedFits(load, t, n);
    hide DecayFits;
    var c := Coefficient(load);
    CoefficientIs(w, load, n);
    CoefficientBelow(load, n);
    DecayRange(c, t.recentCpu, t.nice, n);
    FitsExactly(w, Quot(c * t.recentCpu, F));
    FitsExactly(w, t.nice * F);
    FitsExactly(w, Quot(c * t.recentCpu, F) + t.nice * F);
  }

  lemma ChargedIs(w: Word, cpu: int, n: nat, k: nat)
    requires InRange(n, k, cpu) && n <= 545 && k < TIMER_FREQ
    ensures FpIntAdd(w, cpu, 1) == cpu + F && InRange(n, k + 1, cpu + F) && ChargeFits(cpu)
  {
    FitsExactly(w, F);
    FitsExactly(w, cpu + F);
  }

  /** thread_update_priority() is the documented formula, a quarter of recent_cpu being
      rounded to the nearest integer, cut off at the ends of the scale. */
  lemma PrioritizedIs(w: Word, t: Task)
    requires Fits(t.recentCpu) && Nice(t.nice)
    ensures Prioritized(w, t) == t.(priority := Clamp(PRI_MAX - Quarter(t.recentCpu) - 2 * t.nice))
    ensures -F / 2 <= Quarter(t.recentCpu) * F - Quot(t.recentCpu, 4) <= F / 2
    ensures PriorityFits(t)
  {
    var q := Quot(t.recentCpu, 4);
    var half := if q >= 0 then q + F / 2 else q - F / 2;
    FitsExactly(w, half);
    var quarter := FpRound(w, q);
    FitsExactly(w, PRI_MAX - quarter);
    FitsExactly(w, 2 * t.nice);
    FitsExactly(w, PRI_MAX - quarter - 2 * t.nice);
  }

  /** A quarter of a fixed-point number, rounded to an integer. */
  function Quarter(cpu: int): int {
    FpRound(Unbounded, Quot(cpu, 4))
  }

  // ---- Every run ---------------------------------------------------------------------------

  ghost predicate TaskOk(n: nat, k: nat, t: Task) {
    Nice(t.nice) && InRange(n, k, t.recentCpu) && PRI_MIN <= t.priority <= PRI_MAX
  }

  ghost predicate TasksOk(n: nat, k: nat, tasks: map<Tid, Task>, idle: Tid) {
    && idle in tasks && tasks[idle].nice == 0 && tasks[idle].recentCpu == 0
    && forall t :: t in tasks ==> TaskOk(n, k, tasks[t])
  }

  ghost predicate Inv(n: nat, s: State) {
    0 <= s.load <= F * n && TasksOk(n, s.ticks % TIMER_FREQ, s.tasks, s.idle)
  }

  lemma TaskPrioritized(w: Word, n: nat, k: nat, t: Task)
    requires TaskOk(n, k, t) && n <= 545 && k <= TIMER_FREQ
    ensures TaskOk(n, k, Prioritized(w, t)) && Prioritized(w, t) == Prioritized(Unbounded, t) && PriorityFits(t)
  {
    PrioritizedIs(w, t);
    PrioritizedIs(Unbounded, t);
  }

  lemma AllPrioritizedOk(w: Word, n: nat, k: nat, tasks: map<Tid, Task>, idle: Tid)
    requires TasksOk(n, k, tasks, idle) && n <= 545 && k <= TIMER_FREQ
    ensures TasksOk(n, k, AllPrioritized(w, tasks), idle) && AllPrioritized(w, tasks) == AllPrioritized(Unbounded, tasks)
    ensures AllPrioritiesFit(tasks)
  {
    hide Prioritized, PriorityFits;
    forall t | t in tasks
      ensures TaskOk(n, k, Prioritized(w, tasks[t])) && Prioritized(w, tasks[t]) == Prioritized(Unbounded, tasks[t])
      ensures PriorityFits(tasks[t])
    {
      TaskPrioritized(w, n, k, tasks[t]);
    }
    assert Prioritized(w, tasks[idle]).nice == 0 && Prioritized(w, tasks[idle]).recentCpu == 0 by {
      PrioritizedIs(w, tasks[idle]);
    }
  }

  lemma AllDecayedOk(w: Word, n: nat, tasks: map<Tid, Task>, idle: Tid, load: int)
    requires TasksOk(n, TIMER_FREQ, tasks, idle) && n <= 545 && 0 <= load <= F * n
    ensures TasksOk(n, 0, AllDecayed(w, tasks, idle, load), idle)
    ensures AllDecayed(w, tasks, idle, load) == AllDecayed(Unbounded, tasks, idle, load)
    ensures AllDecaysFit(tasks, idle, load)
  {
    hide Decayed, DecayFits;
    forall t | t in tasks
      ensures TaskOk(n, 0, Decayed(w, load, tasks[t])) && Decayed(w, load, tasks[t]) == Decayed(Unbounded, load, tasks[t])
      ensures DecayFits(load, tasks[t])
    {
      DecayedIs(w, load, tasks[t], n);
      DecayedIs(Unbounded, load, tasks[t], n);
    }
  }

  lemma ChargedOk(w: Word, n: nat, k: nat, tasks: map<Tid, Task>, idle: Tid, current: Tid)
    requires TasksOk(n, k, tasks, idle) && n <= 545 && k < TIMER_FREQ
    ensures TasksOk(n, k + 1, Charged(w, tasks, idle, current), idle)
    ensures Charged(w, tasks, idle, current) == Charged(Unbounded, tasks, idle, current)
    ensures current in tasks ==> ChargeFits(tasks[current].recentCpu)
  {
    hide ChargeFits;
    if current in tasks {
      ChargedIs(w, tasks[current].recentCpu, n, k);
      ChargedIs(Unbounded, tasks[current].recentCpu, n, k);
    }
  }

  lemma NextPhase(ticks: nat)
    ensures (ticks + 1) % TIMER_FREQ == if ticks % TIMER_FREQ == 99 then 0 else ticks % TIMER_FREQ + 1
  {
  }

  lemma TickOk(w: Word, n: nat, s: State, current: Tid, ready: nat)
    requires Inv(n, s) && n <= 545 && Count(s, current, ready) <= n
    ensures Inv(n, Tick(w, s, current, ready)) && Tick(w, s, current, ready) == Tick(Unbounded, s, current, ready)
    ensures TickFits(s, current, ready)
  {
    hide TasksOk, Charged, AllPrioritized, AllDecayed, NextLoad, Count, ChargeFits, AllPrioritiesFit, LoadFits, AllDecaysFit;
    var k := s.ticks % TIMER_FREQ;
    NextPhase(s.ticks);
    var charged := Charged(w, s.tasks, s.idle, current);
    ChargedOk(w, n, k, s.tasks, s.idle, current);
    AllPrioritizedOk(w, n, k + 1, charged, s.idle);
    var tasks := if (s.ticks + 1) % 4 == 0 then AllPrioritized(w, charged) else charged;
    NextLoadIs(w, s.load, Count(s, current, ready), n);
    NextLoadIs(Unbounded, s.load, Count(s, current, ready), n);
    if (s.ticks + 1) % TIMER_FREQ == 0 {
      AllDecayedOk(w, n, tasks, s.idle, NextLoad(w, s.load, Count(s, current, ready)));
    }
  }

  lemma TaskReplaced(n: nat, k: nat, tasks: map<Tid, Task>, idle: Tid, tid: Tid, t: Task)
    requires TasksOk(n, k, tasks, idle) && TaskOk(n, k, t) && tid != idle
    ensures TasksOk(n, k, tasks[tid := t], idle)
  {
  }

  /** One step keeps the ranges, and nothing in it overflows: 32 bits lose nothing. */
  lemma StepOk(w: Word, n: nat, s: State, e: Event)
    requires Inv(n, s) && Enabled(s, e) && AtMost(s, e, n) && n <= 545
    ensures Inv(n, Step(w, s, e)) && Step(w, s, e) == Step(Unbounded, s, e) && StepFits(s, e)
  {
    hide Prioritized, Tick, InRange, TickFits, PriorityFits;
    var k := s.ticks % TIMER_FREQ;
    assert InRange(n, k, 0) by {
      ZeroInRange(n, k);
    }
    match e
    case ETick(current, ready) =>
      TickOk(w, n, s, current, ready);
    case ESetNice(current, nice) =>
      TaskPrioritized(w, n, k, s.tasks[current].(nice := nice));
      TaskReplaced(n, k, s.tasks, s.idle, current, Prioritized(w, s.tasks[current].(nice := nice)));
    case ECreate(current, tid, priority) =>
      var cur := s.tasks[current];
      var t := if current == s.initial then Task(0, 0, priority) else Task(cur.nice, cur.recentCpu, priority);
      TaskPrioritized(w, n, k, cur);
      TaskReplaced(n, k, s.tasks, s.idle, tid, t);
      TaskReplaced(n, k, s.tasks[tid := t], s.idle, current, Prioritized(w, cur));
    case EExit(current) =>
  }

  lemma ZeroInRange(n: nat, k: nat)
    ensures InRange(n, k, 0)
  {
  }

  /** In every run in which at most n <= 545 threads compete, every recent_cpu stays within
      -16384 * 20 (2n + 1) and 16384 * (240n + 120), the load average within 0 and 16384 n,
      every priority on the scale, and no 32-bit or 64-bit value on the way overflows: the run
      is one of the machine on unbounded integers. */
  lemma EveryRunInRange(trace: seq<State>, events: seq<Event>, n: nat)
    requires IsRun(Bits32, trace, events) && n <= 545
    requires forall i :: 0 <= i < |events| ==> AtMost(trace[i], events[i], n)
    ensures IsRun(Unbounded, trace, events)
    ensures forall i :: 0 <= i < |trace| ==> Inv(n, trace[i])
    ensures forall i :: 0 <= i < |events| ==> StepsAt(Bits32, trace, events, i) && StepFits(trace[i], events[i])
    ensures forall i, t :: 0 <= i < |trace| && t in trace[i].tasks ==>
              && -16384 * 20 * (2 * n + 1) <= trace[i].tasks[t].recentCpu <= 16384 * (240 * n + 120)
              && PRI_MIN <= trace[i].tasks[t].priority <= PRI_MAX
  {
    hide Inv, StepFits, Step, Enabled, Boot;
    forall i | 0 <= i < |trace|
      ensures Inv(n, trace[i])
    {
      RunInv(trace, events, n, i);
    }
    forall i | 0 <= i < |events|
      ensures StepsAt(Unbounded, trace, events, i) && StepsAt(Bits32, trace, events, i) && StepFits(trace[i], events[i])
    {
      assert StepsAt(Bits32, trace, events, i);
      StepOk(Bits32, n, trace[i], events[i]);
    }
    forall i, t | 0 <= i < |trace| && t in trace[i].tasks
      ensures TaskOk(n, TIMER_FREQ, trace[i].tasks[t])
    {
      InvTask(n, trace[i], t);
    }
  }

  lemma InvTask(n: nat, s: State, t: Tid)
    requires Inv(n, s) && t in s.tasks
    ensures TaskOk(n, TIMER_FREQ, s.tasks[t])
  {
  }

  lemma {:induction false} RunInv(trace: seq<State>, events: seq<Event>, n: nat, i: nat)
    requires IsRun(Bits32, trace, events) && n <= 545 && i < |trace|
    requires forall i :: 0 <= i < |events| ==> AtMost(trace[i], events[i], n)
    ensures Inv(n, trace[i])
    decreases i
  {
    if i > 0 {
      RunInv(trace, events, n, i - 1);
      assert StepsAt(Bits32, trace, events, i - 1);
      StepOk(Bits32, n, trace[i - 1], events[i - 1]);
    }
  }

  // ---- What each event does ------------------------------------------------------------------

  /** The documented priority, PRI_MAX - recent_cpu / 4 - 2 nice, recent_cpu being in units of 2^-14 and
      the quarter rounded to the nearest integer, kept between 0 and 63. */
  function Documented(cpu: int, nice: int): int {
    var quarter := if cpu >= 0 then (cpu / 4 + 8192) / 16384 else -((-cpu / 4 + 8192) / 16384);
    var p := 63 - quarter - 2 * nice;
    if p > 63 then 63 else if p < 0 then 0 else p
  }

  lemma PrioritizedIsDocumented(w: Word, t: Task)
    requires Fits(t.recentCpu) && Nice(t.nice)
    ensures Prioritized(w, t) == t.(priority := Documented(t.recentCpu, t.nice))
  {
    PrioritizedIs(w, t);
  }

  /** recent_cpu after a second: (2 load / (2 load + 1)) recent_cpu + nice, both divisions in units of
      2^-14 and toward zero. */
  function DecayedCpu(load: nat, cpu: int, nice: int): int {
    var c := 2 * load * 16384 / (2 * load + 16384);
    (if cpu >= 0 then c * cpu / 16384 else -(c * -cpu / 16384)) + 16384 * nice
  }

  lemma DecayedIsDocumented(w: Word, load: int, t: Task, n: nat)
    requires 0 <= load <= F * n && n <= 545 && Nice(t.nice) && InRange(n, TIMER_FREQ, t.recentCpu)
    ensures Decayed(w, load, t) == t.(recentCpu := DecayedCpu(load, t.recentCpu, t.nice))
  {
    DecayedIs(w, load, t, n);
    QuotOfProduct(Coefficient(load), t.recentCpu);
  }

  lemma QuotOfProduct(c: nat, cpu: int)
    ensures Quot(c * cpu, 16384) == if cpu >= 0 then c * cpu / 16384 else -(c * -cpu / 16384)
  {
    assert cpu >= 0 ==> c * cpu >= 0;
    assert c * -cpu == -(c * cpu);
    MulLe(cpu, 0, c);
  }

  /** recent_cpu of thread t when the tick has been charged: a tick is a whole one, for the running
      thread unless that is the idle thread, and nothing for any other. */
  function ChargedCpu(s: State, current: Tid, t: Tid): int
    requires t in s.tasks
  {
    if t == current && t != s.idle then s.tasks[t].recentCpu + 16384 else s.tasks[t].recentCpu
  }

  /** What the tick to time s.ticks + 1 makes of thread t, `load` being the load average after it. */
  ghost predicate TickedTask(s: State, current: Tid, load: nat, t: Tid, now: Task)
    requires t in s.tasks
  {
    var n, cpu, was := s.ticks + 1, ChargedCpu(s, current, t), s.tasks[t];
    && now.nice == was.nice
    && now.priority == (if n % 4 == 0 then Documented(cpu, was.nice) else was.priority)
    && now.recentCpu == (if n % 100 == 0 && t != s.idle then DecayedCpu(load, cpu, was.nice) else cpu)
  }

  ghost predicate Ticked(s: State, current: Tid, ready: nat, s': State) {
    var n := s.ticks + 1;
    && s'.ticks == n && s'.idle == s.idle && s'.initial == s.initial && s'.tasks.Keys == s.tasks.Keys && s'.load >= 0
    && s'.load == (if n % 100 == 0 then 16110 * s.load / 16384 + 273 * (if current == s.idle then ready else ready + 1)
                   else s.load)
    && forall t :: t in s.tasks ==> TickedTask(s, current, s'.load, t, s'.tasks[t])
  }

  /** thread by thread: charged, then recomputed every fourth tick, then decayed every hundredth. */
  lemma TickTask(w: Word, s: State, current: Tid, ready: nat, t: Tid)
    requires t in s.tasks
    ensures var s', n, was := Tick(w, s, current, ready), s.ticks + 1, s.tasks[t];
            var charged := if t == current && t != s.idle then was.(recentCpu := FpIntAdd(w, was.recentCpu, 1)) else was;
            var known := if n % 4 == 0 then Prioritized(w, charged) else charged;
            && t in s'.tasks
            && s'.tasks[t] == if n % 100 == 0 && t != s.idle then Decayed(w, s'.load, known) else known
  {
    hide Prioritized, Decayed, FpIntAdd, NextLoad;
  }

  lemma TickFrame(w: Word, s: State, current: Tid, ready: nat)
    ensures var s', n := Tick(w, s, current, ready), s.ticks + 1;
            && s'.ticks == n && s'.idle == s.idle && s'.initial == s.initial && s'.tasks.Keys == s.tasks.Keys
            && s'.load == if n % 100 == 0 then NextLoad(w, s.load, if current == s.idle then ready else ready + 1) else s.load
  {
    hide Prioritized, Decayed, FpIntAdd, NextLoad;
  }

  lemma ChargedFits(n: nat, k: nat, cpu: int)
    requires InRange(n, k, cpu) && n <= 545 && k <= TIMER_FREQ
    ensures Fits(cpu) && InRange(n, TIMER_FREQ, cpu)
  {
  }

  /** Every tick does exactly what is documented, to every thread. */
  lemma TickIs(w: Word, n: nat, s: State, current: Tid, ready: nat)
    requires Inv(n, s) && n <= 545 && Count(s, current, ready) <= n
    ensures Ticked(s, current, ready, Tick(w, s, current, ready))
  {
    var s' := Tick(w, s, current, ready);
    TickFrame(w, s, current, ready);
    NextLoadIs(w, s.load, Count(s, current, ready), n);
    assert 0 <= s'.load <= F * n;
    hide Tick, NextLoad;
    forall t | t in s.tasks
      ensures TickedTask(s, current, s'.load, t, s'.tasks[t])
    {
      TickTaskIs(w, n, s, current, ready, t);
    }
  }

  lemma TaskFacts(n: nat, s: State, current: Tid, t: Tid)
    requires Inv(n, s) && n <= 545 && t in s.tasks
    ensures var cpu := ChargedCpu(s, current, t);
            Fits(cpu) && InRange(n, TIMER_FREQ, cpu) && Nice(s.tasks[t].nice)
  {
    assert TaskOk(n, s.ticks % TIMER_FREQ, s.tasks[t]);
  }

  lemma ChargedWord(w: Word, n: nat, s: State, t: Tid)
    requires Inv(n, s) && n <= 545 && t in s.tasks
    ensures FpIntAdd(w, s.tasks[t].recentCpu, 1) == s.tasks[t].recentCpu + 16384
  {
    assert TaskOk(n, s.ticks % TIMER_FREQ, s.tasks[t]);
    ChargedIs(w, s.tasks[t].recentCpu, n, s.ticks % TIMER_FREQ);
  }

  lemma TickTaskIs(w: Word, n: nat, s: State, current: Tid, ready: nat, t: Tid)
    requires Inv(n, s) && n <= 545 && t in s.tasks && 0 <= Tick(w, s, current, ready).load <= F * n
    ensures t in Tick(w, s, current, ready).tasks
    ensures TickedTask(s, current, Tick(w, s, current, ready).load, t, Tick(w, s, current, ready).tasks[t])
  {
    hide Inv, Tick, Prioritized, Decayed, FpIntAdd, InRange, Documented, DecayedCpu;
    TickTask(w, s, current, ready, t);
    TaskFacts(n, s, current, t);
    ChargedWord(w, n, s, t);
    var s', was, cpu := Tick(w, s, current, ready), s.tasks[t], ChargedCpu(s, current, t);
    PrioritizedIsDocumented(w, was.(recentCpu := cpu));
    DecayedIsDocumented(w, s'.load, was.(recentCpu := cpu), n);
    DecayedIsDocumented(w, s'.load, was.(recentCpu := cpu, priority := Documented(cpu, was.nice)), n);
  }

  /** thread_set_nice(), thread_create() and thread_exit() change no other thread, and nothing but what
      they are for. */
  ghost predicate Changed(s: State, e: Event, s': State)
    requires Enabled(s, e) && !e.ETick?
  {
    && s'.ticks == s.ticks && s'.load == s.load && s'.idle == s.idle && s'.initial == s.initial
    && var was := s.tasks[e.current];
       match e
       case ESetNice(current, nice) =>
         s'.tasks == s.tasks[current := was.(nice := nice, priority := Documented(was.recentCpu, nice))]
       case ECreate(current, tid, priority) =>
         && s'.tasks.Keys == s.tasks.Keys + {tid}
         && (forall t :: t in s.tasks && t != current ==> s'.tasks[t] == s.tasks[t])
         && s'.tasks[current] == was.(priority := Documented(was.recentCpu, was.nice))
         && s'.tasks[tid] == (if current == s.initial then Task(0, 0, priority) else Task(was.nice, was.recentCpu, priority))
       case EExit(current) =>
         s'.tasks.Keys == s.tasks.Keys - {current} && forall t :: t in s'.tasks ==> s'.tasks[t] == s.tasks[t]
  }

  lemma OtherStepIs(w: Word, n: nat, s: State, e: Event)
    requires Inv(n, s) && Enabled(s, e) && !e.ETick? && n <= 545
    ensures Changed(s, e, Step(w, s, e))
  {
    hide Prioritized, Documented, InRange;
    var was, k := s.tasks[e.current], s.ticks % TIMER_FREQ;
    assert TaskOk(n, k, was);
    ChargedFits(n, k, was.recentCpu);
    if e.ESetNice? {
      PrioritizedIsDocumented(w, was.(nice := e.nice));
    } else {
      PrioritizedIsDocumented(w, was);
    }
  }

  /** In every run in which at most n <= 545 threads compete, every event does exactly what is
      documented: a tick charges the running thread, recomputes all priorities when the time is a
      multiple of 4, and the load average and every recent_cpu when it is one of 100. */
  lemma EveryRunAsDocumented(trace: seq<State>, events: seq<Event>, n: nat, i: nat)
    requires IsRun(Bits32, trace, events) && n <= 545 && i < |events|
    requires forall i :: 0 <= i < |events| ==> AtMost(trace[i], events[i], n)
    ensures var e := events[i];
            && Enabled(trace[i], e)
            && if e.ETick? then Ticked(trace[i], e.current, e.ready, trace[i + 1]) else Changed(trace[i], e, trace[i + 1])
  {
    RunInv(trace, events, n, i);
    assert StepsAt(Bits32, trace, events, i);
    hide Inv, Ticked, Changed, Tick;
    var s, e := trace[i], events[i];
    if e.ETick? {
      TickIs(Bits32, n, s, e.current, e.ready);
    } else {
      OtherStepIs(Bits32, n, s, e);
    }
  }

  /** Over four ticks of a run from boot: the initial thread, running alone, is charged four ticks and
      gets priority 62. */
  lemma FourTicks(trace: seq<State>, events: seq<Event>)
    requires IsRun(Bits32, trace, events) && |events| == 4
    requires forall i :: 0 <= i < 4 ==> events[i] == ETick(trace[0].initial, 0)
    ensures trace[0].initial in trace[4].tasks
    ensures trace[4].tasks[trace[0].initial].recentCpu == 65536 && trace[4].tasks[trace[0].initial].priority == 62
  {
    hide Tick, Documented, DecayedCpu;
    var t := trace[0].initial;
    assert Documented(65536, 0) == 62 by {
      DocumentedAtFour();
    }
    Alone(trace, events, 0);
    Alone(trace, events, 1);
    Alone(trace, events, 2);
    Alone(trace, events, 3);
  }

  lemma DocumentedAtFour()
    ensures Documented(65536, 0) == 62
  {
  }

  lemma Alone(trace: seq<State>, events: seq<Event>, i: nat)
    requires IsRun(Bits32, trace, events) && |events| == 4 && i < 4
    requires forall i :: 0 <= i < 4 ==> events[i] == ETick(trace[0].initial, 0)
    ensures Ticked(trace[i], trace[0].initial, 0, trace[i + 1])
  {
    assert forall i :: 0 <= i < |events| ==> AtMost(trace[i], events[i], 1);
    EveryRunAsDocumented(trace, events, 1, i);
  }

  /** The ready counts sampled by a run's first i events, one a second. */
  ghost function Samples(trace: seq<State>, events: seq<Event>, i: nat): seq<nat>
    requires i <= |events| < |trace|
  {
    if i == 0 then []
    else
      var e, s := events[i - 1], trace[i - 1];
      Samples(trace, events, i - 1) +
      if e.ETick? && (s.ticks + 1) % TIMER_FREQ == 0 then [Count(s, e.current, e.ready)] else []
  }

  /** In every run in which at most n <= 2048 threads compete, the load average stays in range,
      never exceeds the exact one and never lags it by more than 60 (n + 1) units. */
  lemma EveryRunLoad(trace: seq<State>, events: seq<Event>, n: nat, i: nat)
    requires IsRun(Bits32, trace, events) && i <= |events| && n <= 2048
    requires forall i :: 0 <= i < |events| ==> AtMost(trace[i], events[i], n)
    ensures 0 <= trace[i].load <= F * n
    ensures trace[i].load as real <= ExactLoad(Samples(trace, events, i)) <= (trace[i].load + 60 * (n + 1)) as real
  {
    RunLoad(trace, events, i);
    SamplesAtMost(trace, events, n, i);
    LoadTracksExact(Samples(trace, events, i), n);
  }

  lemma {:induction false} SamplesAtMost(trace: seq<State>, events: seq<Event>, n: nat, i: nat)
    requires i <= |events| < |trace|
    requires forall i :: 0 <= i < |events| ==> AtMost(trace[i], events[i], n)
    ensures forall j :: 0 <= j < |Samples(trace, events, i)| ==> Samples(trace, events, i)[j] <= n
    decreases i
  {
    if i > 0 {
      SamplesAtMost(trace, events, n, i - 1);
      assert AtMost(trace[i - 1], events[i - 1], n);
    }
  }

  /** The load average of a run is the fold of its samples, overflow or not. */
  lemma {:induction false} RunLoad(trace: seq<State>, events: seq<Event>, i: nat)
    requires IsRun(Bits32, trace, events) && i <= |events|
    ensures trace[i].load == LoadAfter(Samples(trace, events, i))
    decreases i
  {
    if i > 0 {
      RunLoad(trace, events, i - 1);
      assert StepsAt(Bits32, trace, events, i - 1);
      hide NextLoad;
      var before, now := Samples(trace, events, i - 1), Samples(trace, events, i);
      assert now != before ==> now[..|now| - 1] == before;
    }
  }

  // ---- Reading the values ------------------------------------------------------------------

  /** A rounded 32-bit number is at most 17 bits, and the least one only where the half just fits. */
  lemma RoundedWord(y: int)
    requires Fits(y)
    ensures -131072 <= FpRound(Bits32, y) <= 131071
    ensures FpRound(Bits32, y) == -131072 ==> y == -0x8000_0000 + F / 2 || y == 0x8000_0000 - F / 2
  {
  }

  lemma RoundedOutside(z: int)
    ensures z >= 0x8000_0000 - F / 2 ==> FpRound(Unbounded, z) > 131071
    ensures z < -0x8000_0000 + F / 2 ==> FpRound(Unbounded, z) <= -131072
    ensures z <= -0x8000_0000 - F / 2 ==> FpRound(Unbounded, z) < -131072
  {
  }

  lemma StoredBelow(z: int)
    requires -0x8000_0000 - F / 2 < z < -0x8000_0000 + F / 2
    ensures Store(Bits32, z) < -0x8000_0000 + F / 2 || Store(Bits32, z) > 0x8000_0000 - F / 2
  {
  }

  /** The readers multiply by 100 in 32 bits: they are right exactly when that, and the half
      added for rounding, fits. */
  lemma HundredfoldExactIff(x: int)
    requires Fits(x)
    ensures Hundredfold(Bits32, x) == Hundredfold(Unbounded, x) <==> -21474754 <= x <= 21474754
    ensures -8192 <= Hundredfold(Unbounded, x) * 16384 - 100 * x <= 8192
  {
    var z := x * 100;
    if -21474754 <= x <= 21474754 {
      FitsExactly(Bits32, z);
      FitsExactly(Bits32, if z >= 0 then z + F / 2 else z - F / 2);
    } else {
      hide FpRound;
      RoundedWord(Store(Bits32, z));
      RoundedOutside(z);
      if -0x8000_0000 - F / 2 < z < 0 {
        StoredBelow(z);
      }
    }
  }

  // ---- The variables of threads/thread.c ---------------------------------------------------

  class Scheduler {
    var tasks: map<Tid, Task>
    var allList: seq<Tid>       // all_list
    var load: int               // load_avg
    var ticks: nat
    const idle: Tid
    const initial: Tid

    /** Every thread is on all_list, once. */
    ghost predicate Valid()
      reads this
    {
      && (forall t :: t in allList <==> t in tasks)
      && (forall p, q :: 0 <= p < q < |allList| ==> allList[p] != allList[q])
    }

    ghost function View(): State
      reads this
    {
      State(tasks, idle, initial, load, ticks)
    }

    /** thread_foreach (thread_update_priority, NULL) */
    method UpdatePriorities()
      requires Valid()
      modifies this`tasks
      ensures Valid() && tasks == AllPrioritized(Bits32, old(tasks))
    {
      hide Prioritized;
      ghost var was := tasks;
      var i := 0;
      while i < |allList|
        invariant i <= |allList| && tasks.Keys == was.Keys
        invariant forall t :: t in was ==> tasks[t] == if t in allList[..i] then Prioritized(Bits32, was[t]) else was[t]
      {
        var t := allList[i];
        assert allList[..i + 1] == allList[..i] + [t];
        tasks := tasks[t := Prioritized(Bits32, tasks[t])];
        i := i + 1;
      }
      assert allList[..i] == allList;
    }

    /** thread_foreach (thread_update_recent_cpu, NULL) */
    method UpdateRecentCpus()
      requires Valid()
      modifies this`tasks
      ensures Valid() && tasks == AllDecayed(Bits32, old(tasks), idle, load)
    {
      hide Decayed;
      ghost var was := tasks;
      var i := 0;
      while i < |allList|
        invariant i <= |allList| && tasks.Keys == was.Keys
        invariant forall t :: t in was ==> tasks[t] == if t != idle && t in allList[..i] then Decayed(Bits32, load, was[t]) else was[t]
      {
        var t := allList[i];
        assert allList[..i + 1] == allList[..i] + [t];
        if t != idle {
          tasks := tasks[t := Decayed(Bits32, load, tasks[t])];
        }
        i := i + 1;
      }
      assert allList[..i] == allList;
    }

    /** thread_tick() under timer_interrupt() */
    method ThreadTick(current: Tid, ready: nat)
      requires Valid() && current in tasks
      modifies this`tasks, this`load, this`ticks
      ensures Valid() && View() == Tick(Bits32, old(View()), current, ready)
    {
      hide AllPrioritized, AllDecayed, NextLoad, FpIntAdd;
      ticks := ticks + 1;
      if current != idle {
        tasks := tasks[current := tasks[current].(recentCpu := FpIntAdd(Bits32, tasks[current].recentCpu, 1))];
      }
      if ticks % 4 == 0 {
        UpdatePriorities();
      }
      if ticks % TIMER_FREQ == 0 {
        load := NextLoad(Bits32, load, if current != idle then ready + 1 else ready);
        UpdateRecentCpus();
      }
    }

    /** What thread_create() does to the scheduler's variables */
    method ThreadCreate(current: Tid, tid: Tid, priority: int)
      requires Valid() && current in tasks && tid !in tasks
      modifies this`tasks, this`allList
      ensures Valid() && View() == Created(Bits32, old(View()), current, tid, priority)
    {
      allList := allList + [tid];
      var t := Task(0, 0, priority);
      if current != initial {
        t := t.(nice := tasks[current].nice, recentCpu := tasks[current].recentCpu);
      }
      tasks := tasks[tid := t];
      tasks := tasks[current := Prioritized(Bits32, tasks[current])];
    }

    /** thread_set_nice(), up to its yield */
    method SetNice(current: Tid, nice: int)
      requires Valid() && current in tasks
      modifies this`tasks
      ensures Valid() && tasks == old(tasks)[current := Prioritized(Bits32, old(tasks)[current].(nice := nice))]
    {
      tasks := tasks[current := Prioritized(Bits32, tasks[current].(nice := nice))];
    }
  }
}
