/** The clock protocol of the detectors: one pure step per callback. */
module Protocol {
  import opened Clocks
  import opened Program

  datatype CondMeta = CondMeta(wait: map<Tid, VC>, signal: map<Tid, VC>)

  datatype Slot = Slot(vc: VC, flag: bool)

  datatype BarrierMeta = BarrierMeta(pre1: bool, post1: bool, table1: map<Tid, Slot>, table2: map<Tid, Slot>)

  datatype Sync = Sync(
    clocks: map<Tid, VC>,
    mutexes: map<Addr, VC>,
    conds: map<Addr, CondMeta>,
    barriers: map<Addr, BarrierMeta>)

  const START_SYNC := Sync(map[], map[], map[], map[])

  // Lookups create fresh metas for unknown addresses.
  function ClockOf(s: Sync, t: Tid): VC {
    if t in s.clocks then s.clocks[t] else map[]
  }

  function MutexOf(s: Sync, m: Addr): VC {
    if m in s.mutexes then s.mutexes[m] else map[]
  }

  function CondOf(s: Sync, c: Addr): CondMeta {
    if c in s.conds then s.conds[c] else CondMeta(map[], map[])
  }

  function BarrierOf(s: Sync, b: Addr): BarrierMeta {
    if b in s.barriers then s.barriers[b] else BarrierMeta(true, true, map[], map[])
  }

  // ---------- barriers ----------

  function PreTable(m: BarrierMeta): map<Tid, Slot> {
    if m.pre1 then m.table1 else m.table2
  }

  function PostTable(m: BarrierMeta): map<Tid, Slot> {
    if m.post1 then m.table1 else m.table2
  }

  function SlotClocks(tab: map<Tid, Slot>): map<Tid, VC> {
    map u | u in tab :: tab[u].vc
  }

  function ArriveMeta(m: BarrierMeta, t: Tid, vc: VC): BarrierMeta {
    if m.pre1 then m.(table1 := m.table1[t := Slot(vc, false)])
    else m.(table2 := m.table2[t := Slot(vc, false)])
  }

  function Flagged(tab: map<Tid, Slot>, t: Tid): map<Tid, Slot> {
    if t in tab then tab[t := tab[t].(flag := true)] else tab
  }

  predicate AllFlaggedBut(tab: map<Tid, Slot>, t: Tid) {
    forall u | u in tab && u != t :: tab[u].flag
  }

  predicate NoneFlaggedBut(tab: map<Tid, Slot>, t: Tid) {
    forall u | u in tab && u != t :: !tab[u].flag
  }

  function DepartMeta(m: BarrierMeta, t: Tid): BarrierMeta {
    var tab := PostTable(m);
    var all, none := AllFlaggedBut(tab, t), NoneFlaggedBut(tab, t);
    var tab' := if all then map[] else Flagged(tab, t);
    BarrierMeta(
      if none then !m.pre1 else m.pre1,
      if all then !m.post1 else m.post1,
      if m.post1 then tab' else m.table1,
      if m.post1 then m.table2 else tab')
  }

  // ---------- one callback ----------

  // The clock that stamps an event: after its joins and before the tick that follows a release.
  // (A departure ticks before anything else can see it, so its stamp is taken after the tick.)
  function EventClock(mode: Mode, s: Sync, e: Event): VC {
    var t := e.tid;
    var own := ClockOf(s, t);
    match e.op
    case Begin(None) => map[t := 1]
    case Begin(Some(q)) => Join(map[t := 1], ClockOf(s, q))
    case JoinThread(child) => Join(own, ClockOf(s, child))
    case Lock(m) => if mode.FullHB? then Join(own, MutexOf(s, m)) else own
    case Notify(c) => JoinAll(own, CondOf(s, c).wait)
    case PostWait(c) => if t in CondOf(s, c).signal then Join(own, CondOf(s, c).signal[t]) else own
    case Depart(b) => Inc(JoinAll(own, SlotClocks(PostTable(BarrierOf(s, b)))), t)
    case _ => own
  }

  // Events whose stamp is published and then left behind by a tick of the thread's own clock.
  predicate Ticks(mode: Mode, op: Op) {
    match op
    case JoinThread(_) => mode.MultiLockHB?
    case Unlock(_) => !mode.MultiLockHB?
    case Notify(_) => true
    case PreWait(_) => true
    case _ => false
  }

  function ClocksAfter(mode: Mode, s: Sync, e: Event, v: VC): map<Tid, VC> {
    var t := e.tid;
    match e.op
    case Begin(Some(q)) => s.clocks[q := Inc(ClockOf(s, q), q)][t := v]
    case _ => s.clocks[t := if Ticks(mode, e.op) then Inc(v, t) else v]
  }

  function MutexesAfter(mode: Mode, s: Sync, op: Op, v: VC): map<Addr, VC> {
    match op
    case Lock(m) => s.mutexes[m := MutexOf(s, m)]
    case Unlock(m) => s.mutexes[m := if mode.FullHB? then v else MutexOf(s, m)]
    case Free(region) => s.mutexes - region
    case _ => s.mutexes
  }

  function CondAfter(meta: CondMeta, t: Tid, op: Op, v: VC): CondMeta {
    match op
    case Notify(_) => meta.(signal := meta.signal + map u | u in meta.wait :: v)
    case PreWait(_) => meta.(wait := meta.wait[t := v])
    case PostWait(_) => CondMeta(meta.wait - {t}, meta.signal - {t})
    case _ => meta
  }

  function CondsAfter(s: Sync, e: Event, v: VC): map<Addr, CondMeta> {
    match e.op
    case Notify(c) => s.conds[c := CondAfter(CondOf(s, c), e.tid, e.op, v)]
    case PreWait(c) => s.conds[c := CondAfter(CondOf(s, c), e.tid, e.op, v)]
    case PostWait(c) => s.conds[c := CondAfter(CondOf(s, c), e.tid, e.op, v)]
    case Free(region) => s.conds - region
    case _ => s.conds
  }

  function BarriersAfter(s: Sync, e: Event, v: VC): map<Addr, BarrierMeta> {
    match e.op
    case Arrive(b) => s.barriers[b := ArriveMeta(BarrierOf(s, b), e.tid, v)]
    case Depart(b) => s.barriers[b := DepartMeta(BarrierOf(s, b), e.tid)]
    case Free(region) => s.barriers - region
    case _ => s.barriers
  }

  function Step(mode: Mode, s: Sync, e: Event): Sync {
    var v := EventClock(mode, s, e);
    Sync(ClocksAfter(mode, s, e, v), MutexesAfter(mode, s, e.op, v), CondsAfter(s, e, v), BarriersAfter(s, e, v))
  }

  // ---------- runs ----------

  // A run: the events, and the program and detector states before, between and after them.
  datatype Exec = Exec(mode: Mode, parties: Parties, trace: Trace, progs: seq<Prog>, syncs: seq<Sync>)

  ghost predicate Shaped(x: Exec) {
    && |x.progs| == |x.syncs| == |x.trace| + 1
    && x.progs[0] == START_PROG && x.syncs[0] == START_SYNC
  }

  // Event j was possible, and both states follow it.
  ghost predicate Taken(x: Exec, j: nat)
    requires Shaped(x) && j < |x.trace|
  {
    && CanDo(x.parties, x.progs[j], x.trace[j])
    && x.progs[j + 1] == Do(x.parties, x.progs[j], x.trace[j])
    && x.syncs[j + 1] == Step(x.mode, x.syncs[j], x.trace[j])
  }

  ghost predicate Legal(x: Exec) {
    Shaped(x) && forall j | 0 <= j < |x.trace| :: Taken(x, j)
  }

  type Run = x: Exec | Legal(x)
    witness Exec(FullHB, map[], [], [START_PROG], [START_SYNC])

  // The clock that stamps event j of the run.
  ghost function Stamp(x: Run, j: nat): VC
    requires j < |x.trace|
  {
    EventClock(x.mode, x.syncs[j], x.trace[j])
  }

  // The clock of thread t after n events.
  ghost function ClockAt(x: Run, n: nat, t: Tid): VC
    requires n <= |x.trace|
  {
    ClockOf(x.syncs[n], t)
  }
}
