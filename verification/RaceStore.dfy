/** The race database: hash-consed static events and races, and their save and load. */
module RaceStore {
  import opened Clocks
  import opened Program
  import opened Accesses

  type Id = nat

  // ---------- an id table with a hash index ----------

  // The last id given out, the items by id, and the ids by hash of the item.
  datatype Table<K> = Table(last: Id, items: map<Id, K>, index: map<nat, seq<Id>>)

  function Bucket<K>(t: Table<K>, h: nat): seq<Id> {
    if h in t.index then t.index[h] else []
  }

  // Ids are 1..last, no two items are equal, and the index holds exactly the ids of each hash.
  ghost predicate Consistent<K(!new)>(t: Table<K>, hash: K -> nat) {
    && (forall id :: id in t.items <==> 1 <= id <= t.last)
    && (forall i, j | i in t.items && j in t.items && t.items[i] == t.items[j] :: i == j)
    && (forall h, id :: id in Bucket(t, h) <==> id in t.items && hash(t.items[id]) == h)
  }

  function Added<K>(t: Table<K>, hash: K -> nat, id: Id, k: K): Table<K> {
    Table(Max(id, t.last), t.items[id := k], t.index[hash(k) := Bucket(t, hash(k)) + [id]])
  }

  lemma AddedConsistent<K(!new)>(t: Table<K>, hash: K -> nat, k: K)
    requires Consistent(t, hash) && forall id | id in t.items :: t.items[id] != k
    ensures Consistent(Added(t, hash, t.last + 1, k), hash)
  {
    var t' := Added(t, hash, t.last + 1, k);
    forall h, id ensures id in Bucket(t', h) <==> id in t'.items && hash(t'.items[id]) == h {
      assert id in Bucket(t, h) <==> id in t.items && hash(t.items[id]) == h;
    }
  }

  // The first id in the bucket whose item matches.
  method Find<K(==, !new)>(t: Table<K>, hash: K -> nat, k: K) returns (found: Option<Id>)
    requires Consistent(t, hash)
    ensures match found
            case Some(id) => id in t.items && t.items[id] == k
            case None => forall id | id in t.items :: t.items[id] != k
  {
    var bucket := Bucket(t, hash(k));
    for i := 0 to |bucket|
      invariant forall j | 0 <= j < i :: bucket[j] in t.items && t.items[bucket[j]] != k
    {
      assert bucket[i] in Bucket(t, hash(k));
      if t.items[bucket[i]] == k {
        return Some(bucket[i]);
      }
    }
    forall id | id in t.items ensures t.items[id] != k {
      assert t.items[id] == k ==> id in Bucket(t, hash(k));
    }
    return None;
  }

  // Finds the item or adds it under the next id.
  method Intern<K(==, !new)>(t: Table<K>, hash: K -> nat, k: K) returns (t': Table<K>, id: Id)
    requires Consistent(t, hash)
    ensures Consistent(t', hash) && id in t'.items && t'.items[id] == k
    ensures Extends(t, t')
    ensures if exists i :: i in t.items && t.items[i] == k then t' == t else t'.items == t.items[t.last + 1 := k]
  {
    var found := Find(t, hash, k);
    if found.Some? {
      return t, found.value;
    }
    AddedConsistent(t, hash, k);
    return Added(t, hash, t.last + 1, k), t.last + 1;
  }

  method InternBoth<K(==, !new)>(t: Table<K>, hash: K -> nat, k0: K, k1: K) returns (t': Table<K>, i0: Id, i1: Id)
    requires Consistent(t, hash)
    ensures Consistent(t', hash) && Extends(t, t')
    ensures i0 in t'.items && t'.items[i0] == k0 && i1 in t'.items && t'.items[i1] == k1
    ensures forall id | id in t'.items && id !in t.items :: t'.items[id] == k0 || t'.items[id] == k1
  {
    t', i0 := Intern(t, hash, k0);
    t', i1 := Intern(t', hash, k1);
  }

  // ---------- the database ----------

  datatype StaticEvent = StaticEvent(inst: Inst, kind: Kind)

  // A static race is the list of its event ids.
  type StaticRace = seq<Id>

  datatype RaceEvent = RaceEvent(t: Tid, event: Id)

  datatype Race = Race(exec: nat, addr: Addr, events: seq<RaceEvent>, race: Id)

  function EventIds(events: seq<RaceEvent>): StaticRace {
    seq(|events|, i requires 0 <= i < |events| => events[i].event)
  }

  datatype Store = Store(
    events: Table<StaticEvent>, races: Table<StaticRace>, dynamic: seq<Race>, exec: nat, racy: set<Inst>)

  // The hashes are sums of pointers in memory: any two functions.
  datatype Hashes = Hashes(event: StaticEvent -> nat, race: StaticRace -> nat)

  ghost predicate IsEvent(events: Table<StaticEvent>, id: Id, e: StaticEvent) {
    id in events.items && events.items[id] == e
  }

  // Everything stored in t is stored in t' under the same id.
  ghost predicate Extends<K(!new)>(t: Table<K>, t': Table<K>) {
    forall id | id in t.items :: id in t'.items && t'.items[id] == t.items[id]
  }

  ghost predicate Resolves(events: Table<StaticEvent>, races: Table<StaticRace>, r: Race) {
    && r.race in races.items && races.items[r.race] == EventIds(r.events)
    && forall e | e in r.events :: e.event in events.items
  }

  ghost predicate Sound(s: Store, h: Hashes) {
    && Consistent(s.events, h.event) && Consistent(s.races, h.race)
    && (forall id, e | id in s.races.items && e in s.races.items[id] :: e in s.events.items)
    && (forall r | r in s.dynamic :: Resolves(s.events, s.races, r))
  }

  // ---------- save and load ----------

  datatype Proto = Proto(
    events: seq<(Id, StaticEvent)>, races: seq<(Id, StaticRace)>, dynamic: seq<Race>, racy: seq<Inst>)

  // The list holds every entry of the map once, in any order.
  ghost predicate Lists<K>(list: seq<(Id, K)>, items: map<Id, K>) {
    && (forall i, j | 0 <= i < j < |list| :: list[i].0 != list[j].0)
    && (forall i | 0 <= i < |list| :: list[i].0 in items && items[list[i].0] == list[i].1)
    && (forall id | id in items :: (id, items[id]) in list)
  }

  ghost predicate Saves(p: Proto, s: Store) {
    && Lists(p.events, s.events.items) && Lists(p.races, s.races.items)
    && p.dynamic == s.dynamic
    && (forall i :: i in p.racy <==> i in s.racy)
  }

  function LoadTable<K>(t: Table<K>, hash: K -> nat, list: seq<(Id, K)>, n: nat): Table<K>
    requires n <= |list|
  {
    if n == 0 then t else Added(LoadTable(t, hash, list, n - 1), hash, list[n - 1].0, list[n - 1].1)
  }

  function LargestExec(exec: nat, dynamic: seq<Race>, n: nat): nat
    requires n <= |dynamic|
  {
    if n == 0 then exec else Max(dynamic[n - 1].exec, LargestExec(exec, dynamic, n - 1))
  }

  function LoadStore(s: Store, h: Hashes, p: Proto): Store {
    Store(
      LoadTable(s.events, h.event, p.events, |p.events|),
      LoadTable(s.races, h.race, p.races, |p.races|),
      s.dynamic + p.dynamic,
      LargestExec(s.exec, p.dynamic, |p.dynamic|) + 1,
      s.racy + set i | i in p.racy)
  }

  class RaceDB {
    const hashes: Hashes
    var events: Table<StaticEvent>
    var races: Table<StaticRace>
    var dynamic: seq<Race>
    var exec: nat
    var racy: set<Inst>

    function State(): Store
      reads this
    {
      Store(events, races, dynamic, exec, racy)
    }

    constructor (hashes: Hashes)
      ensures this.hashes == hashes && Sound(State(), hashes)
      ensures State() == EMPTY_STORE
    {
      this.hashes := hashes;
      events, races := Table(0, map[], map[]), Table(0, map[], map[]);
      dynamic, exec, racy := [], 0, {};
    }

    // The new race resolves to the two given events; everything stored before keeps its meaning.
    method CreateRace(addr: Addr, t0: Tid, i0: Inst, k0: Kind, t1: Tid, i1: Inst, k1: Kind)
      requires Sound(State(), hashes)
      modifies this`events, this`races, this`dynamic
      ensures Sound(State(), hashes)
      ensures |dynamic| == |old(dynamic)| + 1 && dynamic[..|old(dynamic)|] == old(dynamic)
      ensures var r := dynamic[|dynamic| - 1];
              && r.exec == exec && r.addr == addr && |r.events| == 2
              && r.events[0].t == t0 && r.events[1].t == t1
              && IsEvent(events, r.events[0].event, StaticEvent(i0, k0))
              && IsEvent(events, r.events[1].event, StaticEvent(i1, k1))
      ensures Extends(old(events), events) && Extends(old(races), races)
      ensures forall id | id in events.items && id !in old(events).items ::
                events.items[id] == StaticEvent(i0, k0) || events.items[id] == StaticEvent(i1, k1)
      ensures forall id | id in races.items && id !in old(races).items :: id == dynamic[|dynamic| - 1].race
    {
      var newEvents, newRaces, race := MakeRace(State(), hashes, addr, t0, i0, k0, t1, i1, k1);
      events, races, dynamic := newEvents, newRaces, dynamic + [race];
    }

    // The race, with the tables that know its events and its static race.
    static method MakeRace(
      s: Store, h: Hashes, addr: Addr, t0: Tid, i0: Inst, k0: Kind, t1: Tid, i1: Inst, k1: Kind)
      returns (events: Table<StaticEvent>, races: Table<StaticRace>, r: Race)
      requires Sound(s, h)
      ensures Sound(Store(events, races, s.dynamic + [r], s.exec, s.racy), h)
      ensures r.exec == s.exec && r.addr == addr && |r.events| == 2
      ensures r.events[0].t == t0 && IsEvent(events, r.events[0].event, StaticEvent(i0, k0))
      ensures r.events[1].t == t1 && IsEvent(events, r.events[1].event, StaticEvent(i1, k1))
      ensures Extends(s.events, events) && Extends(s.races, races)
      ensures forall id | id in events.items && id !in s.events.items ::
                events.items[id] == StaticEvent(i0, k0) || events.items[id] == StaticEvent(i1, k1)
      ensures forall id | id in races.items && id !in s.races.items :: id == r.race
    {
      var e0, e1, id;
      events, e0, e1 := InternBoth(s.events, h.event, StaticEvent(i0, k0), StaticEvent(i1, k1));
      races, id := Intern(s.races, h.race, [e0, e1]);
      r := Race(s.exec, addr, [RaceEvent(t0, e0), RaceEvent(t1, e1)], id);
      RaceAdded(s, h, events, races, r);
    }

    method SetRacyInst(inst: Inst)
      modifies this`racy
      ensures racy == old(racy) + {inst}
    {
      racy := racy + {inst};
    }

    method Save() returns (p: Proto)
      ensures Saves(p, State())
    {
      var savedEvents := SaveTable(events.items);
      var savedRaces := SaveTable(races.items);
      var insts := Ascending(racy);
      AscendingMembers(racy);
      assert forall i :: i in insts <==> i in Members(insts);
      return Proto(savedEvents, savedRaces, dynamic, insts);
    }

    method Load(p: Proto)
      modifies this`events, this`races, this`dynamic, this`exec, this`racy
      ensures State() == LoadStore(old(State()), hashes, p)
    {
      events := LoadEntries(events, hashes.event, p.events);
      races := LoadEntries(races, hashes.race, p.races);
      LoadRaces(p);
      LoadRacy(p);
    }

    static method LoadEntries<K>(t: Table<K>, hash: K -> nat, list: seq<(Id, K)>) returns (t': Table<K>)
      ensures t' == LoadTable(t, hash, list, |list|)
    {
      t' := t;
      for i := 0 to |list|
        invariant t' == LoadTable(t, hash, list, i)
      {
        t' := Added(t', hash, list[i].0, list[i].1);
      }
    }

    method LoadRaces(p: Proto)
      modifies this`dynamic, this`exec
      ensures dynamic == old(dynamic) + p.dynamic
      ensures exec == LargestExec(old(exec), p.dynamic, |p.dynamic|) + 1
    {
      for i := 0 to |p.dynamic|
        invariant dynamic == old(dynamic) + p.dynamic[..i]
        invariant exec == LargestExec(old(exec), p.dynamic, i)
      {
        dynamic := dynamic + [p.dynamic[i]];
        if exec < p.dynamic[i].exec {
          exec := p.dynamic[i].exec;
        }
      }
      exec := exec + 1;
    }

    method LoadRacy(p: Proto)
      modifies this`racy
      ensures racy == old(racy) + set i | i in p.racy
    {
      for i := 0 to |p.racy|
        invariant racy == old(racy) + set x | x in p.racy[..i]
      {
        racy := racy + {p.racy[i]};
      }
      assert p.racy[..|p.racy|] == p.racy;
    }
  }

  method SaveTable<K>(items: map<Id, K>) returns (list: seq<(Id, K)>)
    ensures Lists(list, items)
  {
    list := [];
    var todo := items.Keys;
    while todo != {}
      invariant todo <= items.Keys
      invariant forall i, j | 0 <= i < j < |list| :: list[i].0 != list[j].0
      invariant forall i | 0 <= i < |list| :: list[i].0 in items && list[i].0 !in todo && items[list[i].0] == list[i].1
      invariant forall id | id in items && id !in todo :: (id, items[id]) in list
      decreases |todo|
    {
      var id :| id in todo;
      list := list + [(id, items[id])];
      todo := todo - {id};
    }
  }

  const EMPTY_STORE := Store(Table(0, map[], map[]), Table(0, map[], map[]), [], 0, {})

  lemma RaceAdded(s: Store, h: Hashes, events: Table<StaticEvent>, races: Table<StaticRace>, r: Race)
    requires Sound(s, h) && Consistent(events, h.event) && Consistent(races, h.race)
    requires Extends(s.events, events) && Extends(s.races, races)
    requires |r.events| == 2 && r.events[0].event in events.items && r.events[1].event in events.items
    requires r.race in races.items && races.items[r.race] == [r.events[0].event, r.events[1].event]
    requires races.items == s.races.items || races.items == s.races.items[s.races.last + 1 := races.items[r.race]]
    ensures Sound(Store(events, races, s.dynamic + [r], s.exec, s.racy), h)
  {
    assert EventIds(r.events) == races.items[r.race];
    forall d | d in s.dynamic + [r] ensures Resolves(events, races, d) {
      if d in s.dynamic {
        assert Resolves(s.events, s.races, d);
      }
    }
    forall id, e | id in races.items && e in races.items[id] ensures e in events.items {
    }
  }

  // ---------- the round trip ----------

  ghost predicate Loaded<K>(list: seq<(Id, K)>, n: nat, id: Id, k: K)
    requires n <= |list|
  {
    exists i | 0 <= i < n :: list[i] == (id, k)
  }

  lemma {:induction false} LoadedEntry<K(!new)>(hash: K -> nat, list: seq<(Id, K)>, n: nat, id: Id)
    requires n <= |list| && forall i, j | 0 <= i < j < |list| :: list[i].0 != list[j].0
    ensures var t := LoadTable(Table(0, map[], map[]), hash, list, n);
            && (id in t.items ==> Loaded(list, n, id, t.items[id]))
            && (forall i | 0 <= i < n && list[i].0 == id :: id in t.items && t.items[id] == list[i].1)
            && (forall h :: id in Bucket(t, h) <==> id in t.items && hash(t.items[id]) == h)
  {
    if n > 0 {
      LoadedEntry(hash, list, n - 1, id);
      var t := LoadTable(Table(0, map[], map[]), hash, list, n - 1);
      var t' := LoadTable(Table(0, map[], map[]), hash, list, n);
      if list[n - 1].0 == id {
        assert id !in t.items;
        assert list[n - 1] == (id, t'.items[id]);
      } else if id in t'.items {
        var i :| 0 <= i < n - 1 && list[i] == (id, t.items[id]);
        assert Loaded(list, n, id, t'.items[id]);
      }
      forall h ensures id in Bucket(t', h) <==> id in t'.items && hash(t'.items[id]) == h {
        assert id in Bucket(t, h) <==> id in t.items && hash(t.items[id]) == h;
      }
    }
  }

  lemma {:induction false} LoadedLast<K>(hash: K -> nat, list: seq<(Id, K)>, n: nat)
    requires n <= |list|
    ensures var last := LoadTable(Table(0, map[], map[]), hash, list, n).last;
            && (forall i | 0 <= i < n :: list[i].0 <= last)
            && (last == 0 || exists i | 0 <= i < n :: list[i].0 == last)
  {
    if n > 0 {
      LoadedLast(hash, list, n - 1);
      var last := LoadTable(Table(0, map[], map[]), hash, list, n - 1).last;
      if last != 0 && list[n - 1].0 <= last {
        var i :| 0 <= i < n - 1 && list[i].0 == last;
      }
    }
  }

  lemma TableRoundTrip<K(!new)>(t: Table<K>, hash: K -> nat, hash': K -> nat, list: seq<(Id, K)>)
    requires Consistent(t, hash) && Lists(list, t.items)
    ensures var t' := LoadTable(Table(0, map[], map[]), hash', list, |list|);
            t'.items == t.items && t'.last == t.last && Consistent(t', hash')
  {
    var t' := LoadTable(Table(0, map[], map[]), hash', list, |list|);
    forall id ensures id in t'.items <==> id in t.items {
      LoadedEntry(hash', list, |list|, id);
      if id in t.items {
        var i :| 0 <= i < |list| && list[i] == (id, t.items[id]);
      }
    }
    forall id | id in t.items ensures t'.items[id] == t.items[id] {
      LoadedEntry(hash', list, |list|, id);
      var i :| 0 <= i < |list| && list[i] == (id, t.items[id]);
    }
    assert t'.items.Keys == t.items.Keys;
    assert t'.items == t.items;
    forall h, id ensures id in Bucket(t', h) <==> id in t'.items && hash'(t'.items[id]) == h {
      LoadedEntry(hash', list, |list|, id);
    }
    LoadedLast(hash', list, |list|);
    if t.last > 0 {
      assert t.last in t.items;
    }
  }

  lemma {:induction false} LargestExecIs(dynamic: seq<Race>, n: nat)
    requires n <= |dynamic|
    ensures var m := LargestExec(0, dynamic, n);
            && (forall i | 0 <= i < n :: dynamic[i].exec <= m)
            && (m == 0 || exists i | 0 <= i < n :: dynamic[i].exec == m)
  {
    if n > 0 {
      LargestExecIs(dynamic, n - 1);
      var m := LargestExec(0, dynamic, n - 1);
      if m != 0 && dynamic[n - 1].exec <= m {
        var i :| 0 <= i < n - 1 && dynamic[i].exec == m;
      }
    }
  }

  lemma RacyRoundTrip(s: Store, p: Proto)
    requires Saves(p, s)
    ensures EMPTY_STORE.racy + (set i | i in p.racy) == s.racy
  {
  }

  lemma ExecIsNext(dynamic: seq<Race>)
    ensures var exec := LargestExec(0, dynamic, |dynamic|) + 1;
            && (forall r | r in dynamic :: r.exec < exec)
            && (exec == 1 || exists r | r in dynamic :: r.exec == exec - 1)
  {
    LargestExecIs(dynamic, |dynamic|);
  }

  lemma StillSound(s: Store, h: Hashes, s': Store, h': Hashes)
    requires Sound(s, h) && Consistent(s'.events, h'.event) && Consistent(s'.races, h'.race)
    requires s'.events.items == s.events.items && s'.races.items == s.races.items && s'.dynamic == s.dynamic
    ensures Sound(s', h')
  {
    forall r | r in s'.dynamic ensures Resolves(s'.events, s'.races, r) {
      assert Resolves(s.events, s.races, r);
    }
  }

  // Loading what a sound database saved into a fresh one, in a process with other hashes, restores
  // events, races, racy instructions and the next ids; the execution id is one past the largest saved.
  lemma RoundTrip(s: Store, h: Hashes, h': Hashes, p: Proto)
    requires Sound(s, h) && Saves(p, s)
    ensures var s' := LoadStore(EMPTY_STORE, h', p);
            && Sound(s', h')
            && s'.events.items == s.events.items && s'.events.last == s.events.last
            && s'.races.items == s.races.items && s'.races.last == s.races.last
            && s'.dynamic == s.dynamic && s'.racy == s.racy
            && (forall r | r in s.dynamic :: r.exec < s'.exec)
            && (s'.exec == 1 || exists r | r in s.dynamic :: r.exec == s'.exec - 1)
  {
    var s' := LoadStore(EMPTY_STORE, h', p);
    TableRoundTrip(s.events, h.event, h'.event, p.events);
    TableRoundTrip(s.races, h.race, h'.race, p.races);
    ExecIsNext(p.dynamic);
    RacyRoundTrip(s, p);
    assert s'.dynamic == [] + s.dynamic == s.dynamic;
    StillSound(s, h, s', h');
  }

  // Loading into a database that is in use keeps its races and racy instructions, adds the saved ones, and
  // moves on to an execution id above all of them.
  lemma LoadKeeps(s: Store, h: Hashes, p: Proto)
    ensures var s' := LoadStore(s, h, p);
            && (forall i | 0 <= i < |s.dynamic| :: i < |s'.dynamic| && s'.dynamic[i] == s.dynamic[i])
            && (forall r | r in p.dynamic :: r in s'.dynamic && r.exec < s'.exec)
            && (forall i :: i in s'.racy <==> i in s.racy || i in p.racy)
            && s.exec < s'.exec
  {
    LargestExecBounds(s.exec, p.dynamic, |p.dynamic|);
  }

  lemma {:induction false} LargestExecBounds(exec: nat, dynamic: seq<Race>, n: nat)
    requires n <= |dynamic|
    ensures exec <= LargestExec(exec, dynamic, n)
    ensures forall i | 0 <= i < n :: dynamic[i].exec <= LargestExec(exec, dynamic, n)
  {
    if n > 0 {
      LargestExecBounds(exec, dynamic, n - 1);
    }
  }
}
