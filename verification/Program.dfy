/** Analysis callbacks as a trace of events, and the runs a pthread program can produce. */
module Program {
  import opened Clocks

  type Addr = nat
  type Inst = nat

  datatype Option<T> = None | Some(value: T)

  // One callback of the analyzer.  AfterPthreadCondWait is the two events PostWait, Lock;
  // BeforePthreadCondWait is Unlock, PreWait.  Reads and writes are those that reach
  // ProcessRead/ProcessWrite for one monitoring unit.
  datatype Op =
    | Begin(parent: Option<Tid>)   // ThreadStart
    | JoinThread(child: Tid)       // AfterPthreadJoin
    | Lock(m: Addr)
    | Unlock(m: Addr)
    | Notify(c: Addr)              // signal and broadcast
    | PreWait(c: Addr)
    | PostWait(c: Addr)
    | Arrive(b: Addr)              // before pthread_barrier_wait
    | Depart(b: Addr)              // after pthread_barrier_wait
    | Read(a: Addr, inst: Inst)
    | Write(a: Addr, inst: Inst)
    | Free(region: set<Addr>)      // FreeAddrRegion

  datatype Event = Event(tid: Tid, op: Op)

  type Trace = seq<Event>

  // ---------- what the threads of a program can do ----------

  // A barrier collects arrivals; when the last participant arrives all of them may leave.
  datatype Bar = Bar(round: nat, arrived: set<Tid>, leaving: set<Tid>)

  datatype Prog = Prog(
    started: set<Tid>,
    joined: set<Tid>,
    held: map<Addr, Tid>,
    waiting: map<Tid, Addr>,
    inside: map<Tid, Addr>,
    bars: map<Addr, Bar>)

  const START_PROG := Prog({}, {}, map[], map[], map[], map[])

  function BarOf(p: Prog, b: Addr): Bar {
    if b in p.bars then p.bars[b] else Bar(0, {}, {})
  }

  // The fixed participants of each barrier.
  type Parties = map<Addr, set<Tid>>

  function PartiesOf(parties: Parties, b: Addr): set<Tid> {
    if b in parties then parties[b] else {}
  }

  predicate Running(p: Prog, t: Tid) {
    t in p.started && t !in p.joined && t !in p.waiting && t !in p.inside
  }

  predicate CanDo(parties: Parties, p: Prog, e: Event) {
    var t := e.tid;
    match e.op
    case Begin(None) => p.started == {}
    // The parent may have been joined by then: a creator returns before its child's callback.
    case Begin(Some(q)) => t !in p.started && q in p.started
    case JoinThread(child) =>
      Running(p, t) && child != t && Running(p, child)
    case Lock(m) => Running(p, t) && m !in p.held
    case Unlock(m) => Running(p, t) && m in p.held && p.held[m] == t
    case Notify(c) => Running(p, t)
    case PreWait(c) => Running(p, t)
    case PostWait(c) => t in p.started && t !in p.joined && t in p.waiting && p.waiting[t] == c
    case Arrive(b) => Running(p, t) && t in PartiesOf(parties, b)
    case Depart(b) => t in p.inside && p.inside[t] == b && t in BarOf(p, b).leaving
    case Read(_, _) => Running(p, t)
    case Write(_, _) => Running(p, t)
    case Free(region) =>
      && Running(p, t)
      && (forall m | m in p.held :: m !in region)
      && (forall u | u in p.waiting :: p.waiting[u] !in region)
      && (forall u | u in p.inside :: p.inside[u] !in region)
  }

  function ArriveAt(bar: Bar, all: set<Tid>, t: Tid): Bar {
    if bar.arrived + {t} == all then Bar(bar.round + 1, {}, all)
    else bar.(arrived := bar.arrived + {t})
  }

  function Do(parties: Parties, p: Prog, e: Event): Prog {
    var t := e.tid;
    match e.op
    case Begin(_) => p.(started := p.started + {t})
    case JoinThread(child) => p.(joined := p.joined + {child})
    case Lock(m) => p.(held := p.held[m := t])
    case Unlock(m) => p.(held := p.held - {m})
    case PreWait(c) => p.(waiting := p.waiting[t := c])
    case PostWait(c) => p.(waiting := p.waiting - {t})
    case Arrive(b) =>
      p.(inside := p.inside[t := b], bars := p.bars[b := ArriveAt(BarOf(p, b), PartiesOf(parties, b), t)])
    case Depart(b) =>
      p.(inside := p.inside - {t}, bars := p.bars[b := BarOf(p, b).(leaving := BarOf(p, b).leaving - {t})])
    case Free(region) => p.(bars := p.bars - region)
    case _ => p
  }

  // Which synchronisation a detector's clocks follow: race::Detector and Detector1 join lock
  // clocks; AccuLock only ticks at unlock; MultiLock ignores locks and ticks at join.
  datatype Mode = FullHB | AccuLockHB | MultiLockHB
}
