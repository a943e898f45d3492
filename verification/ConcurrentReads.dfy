/**
 * Any number of threads reading through one cache, as a transition system whose steps interleave freely. Planning,
 * lookup, each counter update outside the lock, the input read, taking the lock, and each change and counter update
 * of an insertion are steps of their own. A lookup that hits counts its hit, an insertion that finds its key there
 * returns, and the last counter update of an insertion releases the lock, all within the same step: the lock keeps
 * others out meanwhile.
 */
module ConcurrentReads {
  import opened Base
  import opened Envelope
  import opened ReadPlan
  import opened ReadCache

  type Tid = nat

  /** Where a call stands. `dest` says whether the bytes read are a block (and the offset into it) or the answer. */
  datatype Phase =
    | Start
    | Lookup(pos: u64, length: nat, from: nat)
    | RecordMiss(pos: u64, length: nat, from: nat)
    | CountCall(pos: u64, length: nat, dest: Option<nat>)
    | CountRange(pos: u64, length: nat, dest: Option<nat>)
    | Reading(pos: u64, length: nat, dest: Option<nat>)
    | Fetched(pos: u64, block: seq<byte>, from: nat)
    // The following four hold the cache lock
    | Evicting(pos: u64, block: seq<byte>, from: nat)
    | CountEviction(pos: u64, block: seq<byte>, from: nat)
    | CountRemoval(pos: u64, block: seq<byte>, from: nat)
    | CountInsert(pos: u64, block: seq<byte>, from: nat)
    | Done(outcome: Outcome)

  /** A read of `a..b` of a file. `inputFailed` is not in the program: it records that the input failed this call. */
  datatype Call = Call(file: nat, a: usize, b: usize, phase: Phase, inputFailed: bool)

  /** The metrics. The last three are not in the program: the insertions, lookups and reads of the input that were made. */
  datatype Counters = Counters(
    calls: int, ranges: int, hits: int, misses: int, evictions: int, cached: int, inserts: int, lookups: int, reading: int)

  const ZERO := Counters(0, 0, 0, 0, 0, 0, 0, 0, 0)

  datatype State = State(inner: Inner, lock: Option<Tid>, counters: Counters, threads: map<Tid, Call>)

  const INITIAL := State(EMPTY_CACHE, None, ZERO, map[])

  datatype Step =
    | Begin(file: nat, a: usize, b: usize)
    | Proceed
    | ReadFails

  // What one step does besides moving its own call
  datatype CacheOp = Keep | Evict | Push(pos: u64, block: seq<byte>)
  datatype LockOp = Same | Take | Release
  datatype Effect = Effect(phase: Phase, cache: CacheOp, lock: LockOp, tick: Counters)

  function Local(phase: Phase): (r: Effect) {
    Effect(phase, Keep, Same, ZERO)
  }

  /** A read of the input, answered or not. */
  function Read(phase: Phase): (r: Effect) {
    Effect(phase, Keep, Same, ZERO.(reading := 1))
  }

  function Slice(block: seq<byte>, from: nat, length: int): (r: Outcome) {
    if 0 <= length && from + length <= |block| then Bytes(block[from..from + length]) else BadRange
  }

  /** The answer a call takes out of a block. */
  function Answer(call: Call, block: seq<byte>, from: nat): (r: Phase) {
    Done(Slice(block, from, call.b - call.a))
  }

  predicate HoldsLock(phase: Phase) {
    phase.Evicting? || phase.CountEviction? || phase.CountRemoval? || phase.CountInsert?
  }

  /** After planning: refuse, answer at once, look a block up, or read directly. */
  function Planned(plan: Plan): (r: Phase) {
    match plan
    case Refuse => Done(BadRange)
    case Empty => Done(Bytes([]))
    case Direct(pos, length) => CountCall(pos, length, None)
    case Block(pos, length, from) => Lookup(pos, length, from)
  }

  /** The next step of a call that finds `inner` in the cache; none when it is done or has to wait for the lock. */
  function Move(a: Archive, call: Call, inner: Inner, locked: bool): (r: Option<Effect>) {
    match call.phase
    case Start =>
      if call.file < |a.files| then Some(Local(Planned(PlanRead(a.files[call.file], call.a, call.b)))) else None
    case Lookup(pos, length, from) =>
      if locked then None
      else if pos in inner.blocks then Some(Effect(Answer(call, inner.blocks[pos], from), Keep, Same, ZERO.(hits := 1, lookups := 1)))
      else Some(Effect(RecordMiss(pos, length, from), Keep, Same, ZERO.(lookups := 1)))
    case RecordMiss(pos, length, from) => Some(Effect(CountCall(pos, length, Some(from)), Keep, Same, ZERO.(misses := 1)))
    case CountCall(pos, length, dest) => Some(Effect(CountRange(pos, length, dest), Keep, Same, ZERO.(calls := 1)))
    case CountRange(pos, length, dest) => Some(Effect(Reading(pos, length, dest), Keep, Same, ZERO.(ranges := 1)))
    case Reading(pos, length, dest) =>
      (match Pread(a.input, pos, length)
       case None => Some(Read(Done(ReadFailed)))
       case Some(bytes) => Some(Read(if dest.Some? then Fetched(pos, bytes, dest.value) else Done(Bytes(bytes)))))
    case Fetched(pos, block, from) =>
      if locked then None
      else if pos in inner.blocks then Some(Local(Answer(call, inner.blocks[pos], from)))
      else Some(Effect(Evicting(pos, block, from), Keep, Take, ZERO))
    case Evicting(pos, block, from) =>
      if |inner.blocks| >= READ_CACHE_MAX_BLOCKS && inner.order != [] then
        Some(Effect(CountEviction(pos, block, from), Evict, Same, ZERO))
      else Some(Effect(CountInsert(pos, block, from), Push(pos, block), Same, ZERO))
    case CountEviction(pos, block, from) => Some(Effect(CountRemoval(pos, block, from), Keep, Same, ZERO.(evictions := 1)))
    case CountRemoval(pos, block, from) => Some(Effect(Evicting(pos, block, from), Keep, Same, ZERO.(cached := -1)))
    case CountInsert(pos, block, from) =>
      Some(Effect(Answer(call, block, from), Keep, Release, ZERO.(cached := 1, inserts := 1)))
    case Done(_) => None
  }

  /** Where thread `t` stands; a thread that never called anything is done. */
  function CallOf(s: State, t: Tid): (r: Call) {
    if t in s.threads then s.threads[t] else Call(0, 0, 0, Done(BadRange), false)
  }

  /** The call and effect of a step, if it is enabled. */
  function Next(a: Archive, s: State, t: Tid, step: Step): (r: Option<(Call, Effect)>) {
    var call := CallOf(s, t);
    match step
    case Begin(file, from, to) =>
      if file < |a.files| && call.phase.Done? then Some((Call(file, from, to, Start, false), Local(Start))) else None
    case Proceed =>
      (match Move(a, call, s.inner, s.lock.Some?)
       case None => None
       case Some(e) => Some((call.(phase := e.phase), e)))
    case ReadFails =>
      if call.phase.Reading? then Some((call.(phase := Done(ReadFailed), inputFailed := true), Read(Done(ReadFailed)))) else None
  }

  function CacheAfter(inner: Inner, op: CacheOp): (r: Inner) {
    match op
    case Keep => inner
    case Evict => if inner.order != [] then EvictOldest(inner) else inner
    case Push(pos, block) => Append(inner, pos, block)
  }

  function LockAfter(lock: Option<Tid>, t: Tid, op: LockOp): (r: Option<Tid>) {
    match op case Same => lock case Take => Some(t) case Release => None
  }

  function Plus(c: Counters, d: Counters): (r: Counters) {
    Counters(c.calls + d.calls, c.ranges + d.ranges, c.hits + d.hits, c.misses + d.misses,
             c.evictions + d.evictions, c.cached + d.cached, c.inserts + d.inserts,
             c.lookups + d.lookups, c.reading + d.reading)
  }

  function After(s: State, t: Tid, call: Call, e: Effect): (r: State) {
    State(CacheAfter(s.inner, e.cache), LockAfter(s.lock, t, e.lock), Plus(s.counters, e.tick), s.threads[t := call])
  }

  function Apply(a: Archive, s: State, t: Tid, step: Step): (r: Option<State>) {
    match Next(a, s, t, step) case None => None case Some((call, e)) => Some(After(s, t, call, e))
  }

  /** Some thread takes a step that is enabled. */
  ghost predicate Steps(a: Archive, s: State, s': State) {
    exists t: Tid, step :: Apply(a, s, t, step) == Some(s')
  }

  /** A run: any schedule of steps, each enabled where it is taken. */
  ghost predicate IsRun(a: Archive, run: seq<State>) {
    && run != [] && run[0] == INITIAL
    && forall k :: 0 <= k < |run| - 1 ==> Steps(a, run[k], run[k + 1])
  }

  // ---- The invariant ----

  predicate PlanOf(a: Archive, call: Call, plan: Plan) {
    call.file < |a.files| && PlanRead(a.files[call.file], call.a, call.b) == plan
  }

  predicate Fetching(a: Archive, call: Call, pos: u64, length: nat, dest: Option<nat>) {
    PlanOf(a, call, match dest case None => Direct(pos, length) case Some(from) => Block(pos, length, from))
  }

  predicate Holding(a: Archive, call: Call, pos: u64, block: seq<byte>, from: nat) {
    PlanOf(a, call, Block(pos, |block|, from)) && StandsAt(block, pos, a.input)
  }

  /** Something had to be fetched, and the input lacks it or failed. */
  predicate FetchFailed(plan: Plan, input: seq<byte>, inputFailed: bool) {
    && (plan.Direct? || plan.Block?)
    && (inputFailed || Pread(input, plan.pos, plan.length).None?)
  }

  /** What a finished call may report: the exact bytes, a range its file refuses, or a fetch that did fail. */
  predicate Truthful(a: Archive, call: Call, outcome: Outcome)
    requires call.file < |a.files|
  {
    var file := a.files[call.file];
    match outcome
    case Bytes(bytes) => Exactly(a.input, file, call.a, call.b, bytes)
    case BadRange => PlanRead(file, call.a, call.b).Refuse?
    case ReadFailed => FetchFailed(PlanRead(file, call.a, call.b), a.input, call.inputFailed)
  }

  predicate CallOk(a: Archive, call: Call) {
    && call.file < |a.files|
    && match call.phase
       case Start => true
       case Lookup(pos, length, from) => PlanOf(a, call, Block(pos, length, from))
       case RecordMiss(pos, length, from) => PlanOf(a, call, Block(pos, length, from))
       case CountCall(pos, length, dest) => Fetching(a, call, pos, length, dest)
       case CountRange(pos, length, dest) => Fetching(a, call, pos, length, dest)
       case Reading(pos, length, dest) => Fetching(a, call, pos, length, dest)
       case Fetched(pos, block, from) => Holding(a, call, pos, block, from)
       case Evicting(pos, block, from) => Holding(a, call, pos, block, from)
       case CountEviction(pos, block, from) => Holding(a, call, pos, block, from)
       case CountRemoval(pos, block, from) => Holding(a, call, pos, block, from)
       case CountInsert(pos, block, from) => Holding(a, call, pos, block, from)
       case Done(outcome) => Truthful(a, call, outcome)
  }

  ghost predicate CallsOk(a: Archive, s: State) {
    forall t :: t in s.threads ==> CallOk(a, s.threads[t])
  }

  /** Exactly the thread the lock names is inside the critical section of `insert`. */
  ghost predicate MutualExclusion(s: State) {
    && (s.lock.Some? ==> s.lock.value in s.threads)
    && forall t :: t in s.threads ==> (HoldsLock(s.threads[t].phase) <==> s.lock == Some(t))
  }

  function One(b: bool): (r: int) {
    if b then 1 else 0
  }

  /** While the lock is held, how far the gauge is ahead of the map. */
  function GaugeLead(phase: Phase): (r: int) {
    if phase.CountEviction? || phase.CountRemoval? then 1 else if phase.CountInsert? then -1 else 0
  }

  /** The phase of the lock holder, or of nobody. */
  function HolderPhase(s: State): (r: Phase) {
    if s.lock.Some? then CallOf(s, s.lock.value).phase else Start
  }

  predicate GaugeOk(s: State) {
    && s.counters.cached == |s.inner.blocks| + GaugeLead(HolderPhase(s))
    && s.counters.cached + s.counters.evictions == s.counters.inserts + One(HolderPhase(s).CountRemoval?)
  }

  /** A call on its way to insert finds its key absent, until it has put it there itself. */
  predicate HolderOk(s: State) {
    var phase := HolderPhase(s);
    && (phase.Evicting? || phase.CountEviction? || phase.CountRemoval? ==> phase.pos !in s.inner.blocks)
    && (phase.CountInsert? ==> phase.pos in s.inner.blocks)
  }

  ghost predicate CacheOk(a: Archive, s: State) {
    WellOrdered(s.inner) && Coherent(a, s.inner.blocks) && HolderOk(s)
  }

  /** A call between its recorded miss and the end of its insertion. */
  predicate OwesInsert(phase: Phase) {
    || (phase.CountCall? && phase.dest.Some?) || (phase.CountRange? && phase.dest.Some?) || (phase.Reading? && phase.dest.Some?)
    || phase.Fetched? || HoldsLock(phase)
  }

  predicate OwesRange(phase: Phase) {
    phase.CountRange?
  }

  ghost function Where(threads: map<Tid, Call>, p: Phase -> bool): (r: set<Tid>) {
    set t | t in threads && p(threads[t].phase)
  }

  ghost function Count(threads: map<Tid, Call>, p: Phase -> bool): (r: nat) {
    |Where(threads, p)|
  }

  ghost predicate TotalsOk(s: State) {
    && s.counters.inserts + Count(s.threads, OwesInsert) <= s.counters.misses
    && s.counters.calls == s.counters.ranges + Count(s.threads, OwesRange)
  }

  predicate OwesMiss(phase: Phase) {
    phase.RecordMiss?
  }

  predicate OwesRead(phase: Phase) {
    phase.CountRange? || phase.Reading?
  }

  /** Every lookup is a hit or a miss, and every read of the input is a counted call. */
  ghost predicate TalliesOk(s: State) {
    && s.counters.lookups == s.counters.hits + s.counters.misses + Count(s.threads, OwesMiss)
    && s.counters.calls == s.counters.reading + Count(s.threads, OwesRead)
  }

  ghost predicate Inv(a: Archive, s: State) {
    CallsOk(a, s) && MutualExclusion(s) && GaugeOk(s) && CacheOk(a, s) && TotalsOk(s) && TalliesOk(s)
  }

  // ---- Every step keeps it ----

  lemma {:induction false} WhereAfter(threads: map<Tid, Call>, t: Tid, call: Call, p: Phase -> bool)
    ensures Where(threads[t := call], p) == Where(threads, p) - {t} + (if p(call.phase) then {t} else {})
  {
    var threads' := threads[t := call];
    forall u ensures u in Where(threads', p) <==> u in Where(threads, p) - {t} + (if p(call.phase) then {t} else {}) {
      if u != t {
        assert u in threads' <==> u in threads;
      }
    }
  }

  lemma {:induction false} SizeAfterReplacing(s: set<Tid>, t: Tid, b: bool)
    ensures |s - {t} + (if b then {t} else {})| == |s| - One(t in s) + One(b)
  {
    var others := s - {t};
    assert t !in others;
    assert |s| == |others| + One(t in s) by {
      assert s == if t in s then others + {t} else others;
    }
    assert others + {} == others;
  }

  lemma {:induction false} CountAfter(threads: map<Tid, Call>, t: Tid, call: Call, p: Phase -> bool)
    ensures Count(threads[t := call], p) ==
      Count(threads, p) - One(t in threads && p(threads[t].phase)) + One(p(call.phase))
  {
    WhereAfter(threads, t, call, p);
    SizeAfterReplacing(Where(threads, p), t, p(call.phase));
  }

  lemma {:induction false} TotalsKept(a: Archive, s: State, t: Tid, step: Step)
    requires TotalsOk(s) && Next(a, s, t, step).Some?
    ensures var (call, e) := Next(a, s, t, step).value; TotalsOk(After(s, t, call, e))
  {
    var (call, e) := Next(a, s, t, step).value;
    var phase := CallOf(s, t).phase;
    assert e.tick.inserts + One(OwesInsert(e.phase)) - One(OwesInsert(phase)) <= e.tick.misses;
    assert e.tick.calls == e.tick.ranges + One(OwesRange(e.phase)) - One(OwesRange(phase));
    CountAfter(s.threads, t, call, OwesInsert);
    CountAfter(s.threads, t, call, OwesRange);
  }

  lemma {:induction false} TalliesKept(a: Archive, s: State, t: Tid, step: Step)
    requires TalliesOk(s) && Next(a, s, t, step).Some?
    ensures var (call, e) := Next(a, s, t, step).value; TalliesOk(After(s, t, call, e))
  {
    var (call, e) := Next(a, s, t, step).value;
    var phase := CallOf(s, t).phase;
    assert e.tick.lookups == e.tick.hits + e.tick.misses + One(OwesMiss(e.phase)) - One(OwesMiss(phase));
    assert e.tick.calls == e.tick.reading + One(OwesRead(e.phase)) - One(OwesRead(phase));
    CountAfter(s.threads, t, call, OwesMiss);
    CountAfter(s.threads, t, call, OwesRead);
  }

  /** The lock is taken on entering the critical section and released on leaving it. */
  lemma {:induction false} LockFollowsPhase(a: Archive, s: State, t: Tid, step: Step)
    requires MutualExclusion(s) && Next(a, s, t, step).Some?
    ensures var (call, e) := Next(a, s, t, step).value;
      var phase := CallOf(s, t).phase;
      && call.phase == e.phase
      && (HoldsLock(phase) <==> s.lock == Some(t))
      && (HoldsLock(e.phase) <==> LockAfter(s.lock, t, e.lock) == Some(t))
      && (s.lock.Some? && s.lock != Some(t) ==> e.lock.Same? && e.cache.Keep? && e.tick.cached == e.tick.evictions == e.tick.inserts == 0)
      && (e.lock.Take? ==> s.lock.None?)
  {
  }

  lemma {:induction false} LockKept(a: Archive, s: State, t: Tid, step: Step)
    requires MutualExclusion(s) && Next(a, s, t, step).Some?
    ensures var (call, e) := Next(a, s, t, step).value; MutualExclusion(After(s, t, call, e))
  {
    LockFollowsPhase(a, s, t, step);
  }

  /** The holder of the lock, before and after a step of `t`. */
  lemma {:induction false} HolderMoves(a: Archive, s: State, t: Tid, step: Step)
    requires MutualExclusion(s) && Next(a, s, t, step).Some?
    ensures var (call, e) := Next(a, s, t, step).value;
      var after := HolderPhase(After(s, t, call, e));
      if HoldsLock(e.phase) then after == e.phase
      else if HoldsLock(CallOf(s, t).phase) then after == Start
      else after == HolderPhase(s) && e.cache.Keep? && e.tick.cached == e.tick.evictions == e.tick.inserts == 0
  {
    LockFollowsPhase(a, s, t, step);
  }

  function SizeChange(op: CacheOp): (r: int) {
    match op case Keep => 0 case Evict => -1 case Push(_, _) => 1
  }

  /** Each step of the critical section moves the gauge and the totals as its phases say. */
  lemma {:induction false} TicksFollowPhase(a: Archive, s: State, t: Tid, step: Step)
    requires Next(a, s, t, step).Some?
    ensures var e := Next(a, s, t, step).value.1;
      var phase := CallOf(s, t).phase;
      && e.tick.cached == SizeChange(e.cache) + GaugeLead(e.phase) - GaugeLead(phase)
      && e.tick.cached + e.tick.evictions == e.tick.inserts + One(e.phase.CountRemoval?) - One(phase.CountRemoval?)
  {
  }

  lemma {:induction false} CacheSizeAfter(inner: Inner, op: CacheOp)
    requires WellOrdered(inner)
    requires op.Evict? ==> inner.order != []
    requires op.Push? ==> op.pos !in inner.blocks && |inner.blocks| < READ_CACHE_MAX_BLOCKS
    ensures WellOrdered(CacheAfter(inner, op))
    ensures |CacheAfter(inner, op).blocks| == |inner.blocks| + SizeChange(op)
  {
    match op {
      case Keep =>
      case Evict => EvictKeepsOrder(inner);
      case Push(pos, block) => AppendKeepsOrder(inner, pos, block);
    }
  }

  /** Only the lock holder touches the cache, and it never appends to a full cache or a cached key. */
  lemma {:induction false} CacheOpsAreSafe(a: Archive, s: State, t: Tid, step: Step)
    requires MutualExclusion(s) && WellOrdered(s.inner) && HolderOk(s) && Next(a, s, t, step).Some?
    ensures var e := Next(a, s, t, step).value.1;
      && (e.cache.Evict? ==> s.inner.order != [])
      && (e.cache.Push? ==> (
            && CallOf(s, t).phase.Evicting?
            && e.cache == Push(CallOf(s, t).phase.pos, CallOf(s, t).phase.block)
            && e.cache.pos !in s.inner.blocks && |s.inner.blocks| < READ_CACHE_MAX_BLOCKS))
  {
    LockFollowsPhase(a, s, t, step);
    QueueIsAsLongAsTheMap(s.inner);
  }

  lemma {:induction false} GaugeKept(a: Archive, s: State, t: Tid, step: Step)
    requires MutualExclusion(s) && WellOrdered(s.inner) && HolderOk(s) && GaugeOk(s) && Next(a, s, t, step).Some?
    ensures var (call, e) := Next(a, s, t, step).value; GaugeOk(After(s, t, call, e))
  {
    var (call, e) := Next(a, s, t, step).value;
    LockFollowsPhase(a, s, t, step);
    HolderMoves(a, s, t, step);
    TicksFollowPhase(a, s, t, step);
    CacheOpsAreSafe(a, s, t, step);
    CacheSizeAfter(s.inner, e.cache);
    var s' := After(s, t, call, e);
    assert s'.counters.cached == s.counters.cached + e.tick.cached;
    assert |s'.inner.blocks| == |s.inner.blocks| + SizeChange(e.cache);
    if HoldsLock(CallOf(s, t).phase) {
      assert HolderPhase(s) == CallOf(s, t).phase;
    } else {
      assert GaugeLead(CallOf(s, t).phase) == 0;
    }
  }

  lemma {:induction false} HolderKept(a: Archive, s: State, t: Tid, step: Step)
    requires MutualExclusion(s) && HolderOk(s) && Next(a, s, t, step).Some?
    ensures var (call, e) := Next(a, s, t, step).value; HolderOk(After(s, t, call, e))
  {
    LockFollowsPhase(a, s, t, step);
    HolderMoves(a, s, t, step);
  }

  lemma {:induction false} CacheKept(a: Archive, s: State, t: Tid, step: Step)
    requires MutualExclusion(s) && CacheOk(a, s) && CallsOk(a, s) && Next(a, s, t, step).Some?
    ensures var (call, e) := Next(a, s, t, step).value; CacheOk(a, After(s, t, call, e))
  {
    var (call, e) := Next(a, s, t, step).value;
    HolderKept(a, s, t, step);
    CacheOpsAreSafe(a, s, t, step);
    CacheSizeAfter(s.inner, e.cache);
    if e.cache.Push? {
      FetchedBlockIsTrue(a, CallOf(s, t));
    }
  }

  lemma {:induction false} FetchedBlockIsTrue(a: Archive, call: Call)
    requires CallOk(a, call) && (call.phase.Evicting? || call.phase.CountInsert?)
    ensures IsCachedBlock(a, call.phase.pos, call.phase.block)
  {
    PlannedBlockCoversTheRange(a.files[call.file], call.a, call.b);
  }

  /** The call that moved is still right; the others did not move. */
  lemma {:induction false} CallKept(a: Archive, s: State, t: Tid, step: Step)
    requires Disjoint(a.files) && Coherent(a, s.inner.blocks) && CallsOk(a, s) && Next(a, s, t, step).Some?
    ensures CallOk(a, Next(a, s, t, step).value.0)
  {
    var call := CallOf(s, t);
    match step {
      case Begin(_, _, _) =>
      case ReadFails => assert CallOk(a, call);
      case Proceed =>
        assert CallOk(a, call);
        match call.phase {
          case Start => PlanningIsTruthful(a, call);
          case Lookup(pos, length, from) => AnswerIsTruthful(a, s.inner, call, pos, from);
          case Reading(pos, length, dest) => ReadingIsTruthful(a, call);
          case Fetched(pos, block, from) => AnswerIsTruthful(a, s.inner, call, pos, from);
          case CountInsert(pos, block, from) => OwnBlockIsTruthful(a, call);
          case _ =>
        }
    }
  }

  lemma {:induction false} PlanningIsTruthful(a: Archive, call: Call)
    requires call.file < |a.files|
    ensures CallOk(a, call.(phase := Planned(PlanRead(a.files[call.file], call.a, call.b))))
  {
  }

  lemma {:induction false} ReadingIsTruthful(a: Archive, call: Call)
    requires CallOk(a, call) && call.phase.Reading?
    ensures var e := Move(a, call, EMPTY_CACHE, false).value; CallOk(a, call.(phase := e.phase))
  {
    var file := a.files[call.file];
    if call.phase.dest.None? {
      assert PlanRead(file, call.a, call.b) == Direct(file.start + call.a, call.b - call.a);
    }
  }

  lemma {:induction false} AnswerIsTruthful(a: Archive, inner: Inner, call: Call, pos: u64, from: nat)
    requires Disjoint(a.files) && Coherent(a, inner.blocks) && call.file < |a.files|
    requires PlanRead(a.files[call.file], call.a, call.b).Block?
    requires pos == PlanRead(a.files[call.file], call.a, call.b).pos
    requires from == PlanRead(a.files[call.file], call.a, call.b).from
    ensures pos in inner.blocks ==> CallOk(a, call.(phase := Answer(call, inner.blocks[pos], from)))
  {
    if pos in inner.blocks {
      CachedBlockAnswers(a, call.file, call.a, call.b, inner.blocks[pos]);
    }
  }

  lemma {:induction false} OwnBlockIsTruthful(a: Archive, call: Call)
    requires Disjoint(a.files) && CallOk(a, call) && call.phase.CountInsert?
    ensures CallOk(a, call.(phase := Answer(call, call.phase.block, call.phase.from)))
  {
    FetchedBlockIsTrue(a, call);
    CachedBlockAnswers(a, call.file, call.a, call.b, call.phase.block);
  }

  lemma {:induction false} StepKeepsInv(a: Archive, s: State, t: Tid, step: Step, s': State)
    requires Disjoint(a.files)
    requires Inv(a, s) && Apply(a, s, t, step) == Some(s')
    ensures Inv(a, s')
  {
    CallKept(a, s, t, step);
    LockKept(a, s, t, step);
    GaugeKept(a, s, t, step);
    CacheKept(a, s, t, step);
    TotalsKept(a, s, t, step);
    TalliesKept(a, s, t, step);
  }

  /** The invariant holds after every schedule. */
  lemma {:induction false} RunKeepsInv(a: Archive, run: seq<State>, k: nat)
    requires Disjoint(a.files) && IsRun(a, run) && k < |run|
    ensures Inv(a, run[k])
  {
    hide Inv, Apply, Disjoint;
    if k > 0 {
      RunKeepsInv(a, run, k - 1);
      assert Steps(a, run[k - 1], run[k]);
      var t: Tid, step :| Apply(a, run[k - 1], t, step) == Some(run[k]);
      StepKeepsInv(a, run[k - 1], t, step, run[k]);
    } else {
      InitialInv(a);
    }
  }

  lemma {:induction false} InitialInv(a: Archive)
    ensures Inv(a, INITIAL)
  {
    assert INITIAL.threads == map[];
  }

  // ---- What it means ----

  /** Under every interleaving, cached blocks and completed reads are exactly the bytes of the input. */
  lemma {:induction false} ConcurrentReadsAreExact(a: Archive, run: seq<State>, k: nat)
    requires Disjoint(a.files) && IsRun(a, run) && k < |run|
    ensures forall pos :: pos in run[k].inner.blocks ==> IsCachedBlock(a, pos, run[k].inner.blocks[pos])
    ensures forall t :: t in run[k].threads && run[k].threads[t].phase.Done? ==>
      var call := run[k].threads[t];
      call.file < |a.files| && Truthful(a, call, call.phase.outcome)
  {
    hide IsRun, Disjoint, IsCachedBlock, Truthful;
    RunKeepsInv(a, run, k);
    forall t | t in run[k].threads ensures CallOk(a, run[k].threads[t]) {
    }
  }

  /** The queue, the size limit and the gauge, whenever the lock is free. */
  lemma {:induction false} CacheIsConsistentWhenUnlocked(a: Archive, run: seq<State>, k: nat)
    requires Disjoint(a.files) && IsRun(a, run) && k < |run|
    ensures WellOrdered(run[k].inner) && |run[k].inner.blocks| <= 256
    ensures run[k].lock.None? ==> run[k].counters.cached == |run[k].inner.blocks|
    ensures run[k].counters.cached >= 0
  {
    RunKeepsInv(a, run, k);
    QueueIsAsLongAsTheMap(run[k].inner);
    var s := run[k];
  }

  /** Conservation: every insertion is either still cached or evicted, and no more were made than misses recorded. Once all
      calls are done, every lookup was counted as a hit or a miss, and every read of the input as one call of one range. */
  lemma {:induction false} MetricsAreConserved(a: Archive, run: seq<State>, k: nat)
    requires Disjoint(a.files) && IsRun(a, run) && k < |run|
    ensures run[k].lock.None? ==> run[k].counters.cached + run[k].counters.evictions == run[k].counters.inserts
    ensures run[k].counters.inserts <= run[k].counters.misses
    ensures (forall t :: t in run[k].threads ==> run[k].threads[t].phase.Done?) ==>
      && run[k].counters.hits + run[k].counters.misses == run[k].counters.lookups
      && run[k].counters.ranges == run[k].counters.calls == run[k].counters.reading
  {
    RunKeepsInv(a, run, k);
    if forall t :: t in run[k].threads ==> run[k].threads[t].phase.Done? {
      assert Where(run[k].threads, OwesRange) == Where(run[k].threads, OwesMiss) == Where(run[k].threads, OwesRead) == {};
    }
  }

  /** A lookup of a cached block ends the call: it counts a hit and reads nothing; any other lookup goes on to a miss. */
  lemma {:induction false} CachedBlocksAreNotReadAgain(a: Archive, s: State, t: Tid, s': State)
    requires CallOf(s, t).phase.Lookup? && Apply(a, s, t, Proceed) == Some(s')
    ensures s'.inner == s.inner && s'.counters.lookups == s.counters.lookups + 1
    ensures if CallOf(s, t).phase.pos in s.inner.blocks
      then s'.threads[t].phase.Done? && s'.counters.hits == s.counters.hits + 1 && s'.counters.reading == s.counters.reading
      else s'.threads[t].phase.RecordMiss? && s'.counters.hits == s.counters.hits
  {
  }

  // ---- Inputs that do not fail ----

  ghost predicate StepsWithoutFault(a: Archive, s: State, s': State) {
    exists t: Tid, step :: step != ReadFails && Apply(a, s, t, step) == Some(s')
  }

  /** A run in which the input answers every read it can. */
  ghost predicate IsFaultFreeRun(a: Archive, run: seq<State>) {
    && run != [] && run[0] == INITIAL
    && forall k :: 0 <= k < |run| - 1 ==> StepsWithoutFault(a, run[k], run[k + 1])
  }

  lemma {:induction false} FaultFreeRunsAreRuns(a: Archive, run: seq<State>)
    requires IsFaultFreeRun(a, run)
    ensures IsRun(a, run)
  {
    hide Apply;
    forall k | 0 <= k < |run| - 1 ensures Steps(a, run[k], run[k + 1]) {
      assert StepsWithoutFault(a, run[k], run[k + 1]);
    }
  }

  ghost predicate NoneFailed(s: State) {
    forall t :: t in s.threads ==> !s.threads[t].inputFailed
  }

  lemma {:induction false} StepKeepsNoneFailed(a: Archive, s: State, t: Tid, step: Step, s': State)
    requires NoneFailed(s) && step != ReadFails && Apply(a, s, t, step) == Some(s')
    ensures NoneFailed(s')
  {
  }

  /** Without failing reads, no call is ever marked as failed by the input. */
  lemma {:induction false} FaultFreeCallsDoNotFail(a: Archive, run: seq<State>, k: nat)
    requires IsFaultFreeRun(a, run) && k < |run|
    ensures NoneFailed(run[k])
  {
    if k > 0 {
      FaultFreeCallsDoNotFail(a, run, k - 1);
      assert StepsWithoutFault(a, run[k - 1], run[k]);
      var t: Tid, step :| step != ReadFails && Apply(a, run[k - 1], t, step) == Some(run[k]);
      StepKeepsNoneFailed(a, run[k - 1], t, step, run[k]);
    } else {
      assert INITIAL.threads == map[];
    }
  }

  // ---- Progress ----

  lemma {:induction false} LockHolderCanMove(a: Archive, s: State, t: Tid)
    requires MutualExclusion(s) && s.lock == Some(t)
    ensures Apply(a, s, t, Proceed).Some?
  {
    assert HoldsLock(CallOf(s, t).phase);
  }

  lemma {:induction false} UnlockedCallCanMove(a: Archive, s: State, t: Tid)
    requires CallsOk(a, s) && s.lock.None? && t in s.threads && !s.threads[t].phase.Done?
    ensures Apply(a, s, t, Proceed).Some?
  {
    assert CallOk(a, s.threads[t]);
  }

  /** No deadlock: in every reachable state, while a call is unfinished some unfinished call can take its next step. */
  lemma {:induction false} SomeCallCanMove(a: Archive, run: seq<State>, k: nat, t: Tid)
    requires Disjoint(a.files) && IsRun(a, run) && k < |run|
    requires t in run[k].threads && !run[k].threads[t].phase.Done?
    ensures exists u :: u in run[k].threads && !run[k].threads[u].phase.Done? && Apply(a, run[k], u, Proceed).Some?
  {
    RunKeepsInv(a, run, k);
    hide Apply;
    var s := run[k];
    if s.lock.Some? {
      assert HoldsLock(s.threads[s.lock.value].phase);
      LockHolderCanMove(a, s, s.lock.value);
    } else {
      UnlockedCallCanMove(a, s, t);
    }
  }

  /** How many steps of its own a call has still to take at most, with `n` blocks in the cache. */
  function StepsLeft(phase: Phase, n: nat): (r: nat) {
    var evictions := if n >= READ_CACHE_MAX_BLOCKS then n - READ_CACHE_MAX_BLOCKS + 1 else 0;
    match phase
    case Start => 12
    case Lookup(_, _, _) => 11
    case RecordMiss(_, _, _) => 10
    case CountCall(_, _, _) => 9
    case CountRange(_, _, _) => 8
    case Reading(_, _, _) => 7
    case Fetched(_, _, _) => 6
    case CountEviction(_, _, _) => 4 + 3 * evictions
    case CountRemoval(_, _, _) => 3 + 3 * evictions
    case Evicting(_, _, _) => 2 + 3 * evictions
    case CountInsert(_, _, _) => 1
    case Done(_) => 0
  }

  /** Every step a thread takes in its call brings that call closer to its end and no other call further from it. */
  lemma {:induction false} StepsMakeProgress(a: Archive, s: State, t: Tid, step: Step, s': State)
    requires Inv(a, s) && !step.Begin? && Apply(a, s, t, step) == Some(s')
    ensures t in s.threads && t in s'.threads
    ensures StepsLeft(s'.threads[t].phase, |s'.inner.blocks|) < StepsLeft(s.threads[t].phase, |s.inner.blocks|)
    ensures forall u :: u in s.threads && u != t ==>
      u in s'.threads && StepsLeft(s'.threads[u].phase, |s'.inner.blocks|) == StepsLeft(s.threads[u].phase, |s.inner.blocks|)
  {
    hide Inv, Apply, StepsLeft;
    OwnCallProgresses(a, s, t, step, s');
    forall u | u in s.threads && u != t
      ensures u in s'.threads && StepsLeft(s'.threads[u].phase, |s'.inner.blocks|) == StepsLeft(s.threads[u].phase, |s.inner.blocks|)
    {
      OtherCallsStay(a, s, t, step, s', u);
    }
  }

  lemma {:induction false} OwnCallProgresses(a: Archive, s: State, t: Tid, step: Step, s': State)
    requires Inv(a, s) && !step.Begin? && Apply(a, s, t, step) == Some(s')
    ensures t in s.threads && t in s'.threads
    ensures StepsLeft(s'.threads[t].phase, |s'.inner.blocks|) < StepsLeft(s.threads[t].phase, |s.inner.blocks|)
  {
    assert MutualExclusion(s) && WellOrdered(s.inner) && HolderOk(s);
    hide Inv, StepsLeft, Next, Apply, MutualExclusion, HolderOk, WellOrdered, CacheAfter, SizeChange, CallOf;
    AppliedStep(a, s, t, step, s');
    var e := Next(a, s, t, step).value.1;
    CacheOpsAreSafe(a, s, t, step);
    CacheSizeAfter(s.inner, e.cache);
    SizeIsLimited(s.inner);
    OwnStepCounts(a, s, t, step);
  }

  /** What a step leaves of its own call and of the cache. */
  lemma {:induction false} AppliedStep(a: Archive, s: State, t: Tid, step: Step, s': State)
    requires !step.Begin? && Apply(a, s, t, step) == Some(s')
    ensures Next(a, s, t, step).Some?
    ensures t in s.threads && CallOf(s, t) == s.threads[t]
    ensures t in s'.threads && s'.threads[t].phase == Next(a, s, t, step).value.1.phase
    ensures s'.inner == CacheAfter(s.inner, Next(a, s, t, step).value.1.cache)
  {
  }

  lemma {:induction false} OtherCallsStay(a: Archive, s: State, t: Tid, step: Step, s': State, u: Tid)
    requires Inv(a, s) && Apply(a, s, t, step) == Some(s') && u in s.threads && u != t
    ensures u in s'.threads && StepsLeft(s'.threads[u].phase, |s'.inner.blocks|) == StepsLeft(s.threads[u].phase, |s.inner.blocks|)
  {
    assert MutualExclusion(s) && WellOrdered(s.inner) && HolderOk(s);
    hide Inv, StepsLeft, Next, MutualExclusion, HolderOk, WellOrdered, CacheAfter, SizeChange, HoldsLock;
    var e := Next(a, s, t, step).value.1;
    CacheOpsAreSafe(a, s, t, step);
    CacheSizeAfter(s.inner, e.cache);
    OthersDoNotEvict(a, s, t, step, u);
    OutsideTheLockSizeDoesNotMatter(s.threads[u].phase, |s'.inner.blocks|, |s.inner.blocks|, e.cache);
  }

  lemma {:induction false} SizeIsLimited(inner: Inner)
    requires WellOrdered(inner)
    ensures |inner.blocks| <= READ_CACHE_MAX_BLOCKS
  {
    QueueIsAsLongAsTheMap(inner);
  }

  lemma {:induction false} OutsideTheLockSizeDoesNotMatter(phase: Phase, n: nat, m: nat, op: CacheOp)
    requires op.Keep? || !HoldsLock(phase)
    requires n == m + SizeChange(op)
    ensures StepsLeft(phase, n) == StepsLeft(phase, m)
  {
  }

  lemma {:induction false} OwnStepCounts(a: Archive, s: State, t: Tid, step: Step)
    requires !step.Begin? && Next(a, s, t, step).Some? && |s.inner.blocks| <= READ_CACHE_MAX_BLOCKS
    ensures var e := Next(a, s, t, step).value.1;
      |s.inner.blocks| + SizeChange(e.cache) >= 0 ==>
        StepsLeft(e.phase, |s.inner.blocks| + SizeChange(e.cache)) < StepsLeft(CallOf(s, t).phase, |s.inner.blocks|)
  {
  }

  /** While one thread changes the cache, no other is in the critical section. */
  lemma {:induction false} OthersDoNotEvict(a: Archive, s: State, t: Tid, step: Step, u: Tid)
    requires MutualExclusion(s) && Next(a, s, t, step).Some? && u in s.threads && u != t
    ensures Next(a, s, t, step).value.1.cache.Keep? || !HoldsLock(s.threads[u].phase)
  {
    LockFollowsPhase(a, s, t, step);
  }

  /** So a call is over after at most twelve steps of its own, in every reachable state. */
  lemma {:induction false} CallsAreShort(a: Archive, run: seq<State>, k: nat, t: Tid)
    requires Disjoint(a.files) && IsRun(a, run) && k < |run| && t in run[k].threads
    ensures StepsLeft(run[k].threads[t].phase, |run[k].inner.blocks|) <= 12
    ensures StepsLeft(run[k].threads[t].phase, |run[k].inner.blocks|) == 0 <==> run[k].threads[t].phase.Done?
  {
    CacheIsConsistentWhenUnlocked(a, run, k);
  }
}
