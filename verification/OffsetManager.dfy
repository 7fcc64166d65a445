/** The manager that allocates physical offsets of real streams to logical offsets. */
module OffsetManager {
  import opened MappingKey
  import opened Maps

  datatype Stream = Stream(pathID: string, realStreamID: nat)

  datatype Physical = Physical(nextWriteOffset: nat, bytesWritten: nat)

  datatype Mapping = Mapping(
    logicalStreamID: nat, stream: Stream, logicalToPhysical: map<nat, nat>, physicalToLogical: map<nat, nat>)

  datatype Limits = Limits(maxLogicalStreams: int, maxPhysicalStreams: int)

  datatype Manager = Manager(logical: set<nat>, physical: map<Stream, Physical>, mappings: map<string, Mapping>)

  datatype Status = Ok | InvalidID | AlreadyExists | LimitReached | NotRegistered

  datatype Found = Offset(value: nat) | NotFound

  function KeyOf(logical: nat, s: Stream): string
  {
    Key(logical, s.pathID, s.realStreamID)
  }

  lemma KeyOfIsInjective(l: nat, s: Stream, l': nat, s': Stream)
    ensures KeyOf(l, s) == KeyOf(l', s') <==> l == l' && s == s'
  {
    KeyIsInjective(l, s.pathID, s.realStreamID, l', s'.pathID, s'.realStreamID);
  }

  /** Every mapping is stored under its own key and its real stream is registered. */
  ghost predicate Consistent(m: Manager)
  {
    forall k :: k in m.mappings ==>
      k == KeyOf(m.mappings[k].logicalStreamID, m.mappings[k].stream) && m.mappings[k].stream in m.physical
  }

  lemma MappingIsForStream(m: Manager, l: nat, s: Stream)
    requires Consistent(m) && KeyOf(l, s) in m.mappings
    ensures var g := m.mappings[KeyOf(l, s)]; g.logicalStreamID == l && g.stream == s && s in m.physical
  {
    var g := m.mappings[KeyOf(l, s)];
    KeyOfIsInjective(l, s, g.logicalStreamID, g.stream);
  }

  // ---------------------------------------------------------------------------
  // Operations on the manager's state

  function RegisterLogical(m: Manager, c: Limits, id: nat): (Manager, Status)
  {
    if id == 0 then (m, InvalidID)
    else if id in m.logical then (m, AlreadyExists)
    else if |m.logical| >= c.maxLogicalStreams then (m, LimitReached)
    else (m.(logical := m.logical + {id}), Ok)
  }

  function RegisterPhysical(m: Manager, c: Limits, s: Stream): (Manager, Status)
  {
    if s.pathID == "" || s.realStreamID == 0 then (m, InvalidID)
    else if s in m.physical then (m, AlreadyExists)
    else if |m.physical| >= c.maxPhysicalStreams then (m, LimitReached)
    else (m.(physical := m.physical[s := Physical(0, 0)]), Ok)
  }

  function CreateMapping(m: Manager, l: nat, s: Stream): (Manager, Status)
  {
    if l !in m.logical || s !in m.physical then (m, NotRegistered)
    else if KeyOf(l, s) in m.mappings then (m, AlreadyExists)
    else (m.(mappings := m.mappings[KeyOf(l, s) := Mapping(l, s, map[], map[])]), Ok)
  }

  /** Whether the call takes a new physical offset. */
  predicate Allocates(m: Manager, l: nat, s: Stream, o: nat)
  {
    KeyOf(l, s) in m.mappings && o !in m.mappings[KeyOf(l, s)].logicalToPhysical
  }

  function Bind(g: Mapping, o: nat, x: nat): Mapping
  {
    g.(logicalToPhysical := g.logicalToPhysical[o := x], physicalToLogical := g.physicalToLogical[x := o])
  }

  function ToPhysical(m: Manager, l: nat, s: Stream, o: nat, length: nat): (Manager, Found)
    requires Consistent(m)
  {
    var k := KeyOf(l, s);
    if k !in m.mappings then (m, NotFound)
    else if o in m.mappings[k].logicalToPhysical then (m, Offset(m.mappings[k].logicalToPhysical[o]))
    else
      MappingIsForStream(m, l, s);
      var p := m.physical[s];
      var x := p.nextWriteOffset;
      (m.(mappings := m.mappings[k := Bind(m.mappings[k], o, x)],
          physical := m.physical[s := Physical(x + length, p.bytesWritten + length)]),
       Offset(x))
  }

  function ToLogical(m: Manager, l: nat, s: Stream, x: nat): Found
  {
    var k := KeyOf(l, s);
    if k in m.mappings && x in m.mappings[k].physicalToLogical
    then Offset(m.mappings[k].physicalToLogical[x])
    else NotFound
  }

  /** Expiry removes any set of mappings. */
  function Expire(m: Manager, keys: set<string>): Manager
  {
    m.(mappings := m.mappings - keys)
  }

  // ---------------------------------------------------------------------------
  // The two maps of a mapping

  ghost predicate IsInverse(g: Mapping)
  {
    && (forall o :: o in g.logicalToPhysical ==>
          g.logicalToPhysical[o] in g.physicalToLogical && g.physicalToLogical[g.logicalToPhysical[o]] == o)
    && (forall x :: x in g.physicalToLogical ==>
          g.physicalToLogical[x] in g.logicalToPhysical && g.logicalToPhysical[g.physicalToLogical[x]] == x)
  }

  /** Binding a new logical offset keeps the maps inverse exactly when the physical offset is new. */
  lemma BindKeepsInverseIff(g: Mapping, o: nat, x: nat)
    requires IsInverse(g) && o !in g.logicalToPhysical
    ensures IsInverse(Bind(g, o, x)) <==> x !in g.physicalToLogical
  {
    var b := Bind(g, o, x);
    if x in g.physicalToLogical {
      var lost := g.physicalToLogical[x];
      assert lost != o && b.logicalToPhysical[lost] == x && b.physicalToLogical[x] == o;
    }
  }

  // ---------------------------------------------------------------------------
  // Runs

  /** An allocation: the mapping and logical offset it was made for, and the physical range. */
  datatype Extent = Extent(key: string, logical: nat, start: nat, length: nat)

  /** `extents` is history: the allocations made on each real stream, in order. */
  datatype System = System(manager: Manager, extents: map<Stream, seq<Extent>>)

  datatype Event =
    | DoRegisterLogical(id: nat)
    | DoRegisterPhysical(s: Stream)
    | DoCreateMapping(l: nat, s: Stream)
    | DoMap(l: nat, s: Stream, o: nat, length: nat)
    | DoExpire(keys: set<string>)

  function Init(): (sys: System)
    ensures Inv(sys)
  {
    System(Manager({}, map[], map[]), map[])
  }

  /** The ranges follow one another from 0 to n without gap or overlap. */
  predicate Tiles(es: seq<Extent>, n: nat)
  {
    if es == [] then n == 0
    else
      var last := es[|es| - 1];
      last.start + last.length == n && Tiles(es[..|es| - 1], last.start)
  }

  ghost predicate IsLogged(es: seq<Extent>, k: string, o: nat, x: nat)
  {
    exists i :: 0 <= i < |es| && es[i].key == k && es[i].logical == o && es[i].start == x
  }

  /** Every physical offset a mapping knows was allocated for it. */
  ghost predicate MappingLogged(sys: System, k: string)
    requires k in sys.manager.mappings && sys.manager.mappings[k].stream in sys.extents
  {
    var g := sys.manager.mappings[k];
    forall o :: o in g.logicalToPhysical ==> IsLogged(sys.extents[g.stream], k, o, g.logicalToPhysical[o])
  }

  ghost predicate StreamsTiled(sys: System)
  {
    && sys.extents.Keys == sys.manager.physical.Keys
    && (forall s :: s in sys.extents ==>
          && Tiles(sys.extents[s], sys.manager.physical[s].nextWriteOffset)
          && sys.manager.physical[s].bytesWritten == sys.manager.physical[s].nextWriteOffset)
  }

  ghost predicate Inv(sys: System)
  {
    && Consistent(sys.manager)
    && StreamsTiled(sys)
    && (forall k :: k in sys.manager.mappings ==> MappingLogged(sys, k))
  }

  function Step(sys: System, c: Limits, e: Event): System
    requires Inv(sys)
  {
    var m := sys.manager;
    match e
    case DoRegisterLogical(id) => System(RegisterLogical(m, c, id).0, sys.extents)
    case DoRegisterPhysical(s) =>
      var (m', status) := RegisterPhysical(m, c, s);
      System(m', if status == Ok then sys.extents[s := []] else sys.extents)
    case DoCreateMapping(l, s) => System(CreateMapping(m, l, s).0, sys.extents)
    case DoMap(l, s, o, length) =>
      if Allocates(m, l, s, o) then
        MappingIsForStream(m, l, s);
        var x := m.physical[s].nextWriteOffset;
        System(ToPhysical(m, l, s, o, length).0, sys.extents[s := sys.extents[s] + [Extent(KeyOf(l, s), o, x, length)]])
      else sys
    case DoExpire(keys) => System(Expire(m, keys), sys.extents)
  }

  lemma TilesExtend(es: seq<Extent>, n: nat, e: Extent)
    requires Tiles(es, n) && e.start == n
    ensures Tiles(es + [e], n + e.length)
  {
    assert (es + [e])[..|es|] == es;
  }

  lemma LoggedExtend(es: seq<Extent>, e: Extent, k: string, o: nat, x: nat)
    requires IsLogged(es, k, o, x)
    ensures IsLogged(es + [e], k, o, x)
  {
    var i :| 0 <= i < |es| && es[i].key == k && es[i].logical == o && es[i].start == x;
    assert (es + [e])[i] == es[i];
  }

  lemma LoggedLast(es: seq<Extent>, e: Extent)
    ensures IsLogged(es + [e], e.key, e.logical, e.start)
  {
    assert (es + [e])[|es|] == e;
  }

  lemma MapKeepsInv(sys: System, c: Limits, l: nat, s: Stream, o: nat, length: nat)
    requires Inv(sys)
    ensures Inv(Step(sys, c, DoMap(l, s, o, length)))
  {
    var m := sys.manager;
    if Allocates(m, l, s, o) {
      var k := KeyOf(l, s);
      MappingIsForStream(m, l, s);
      var x := m.physical[s].nextWriteOffset;
      var e := Extent(k, o, x, length);
      var sys' := Step(sys, c, DoMap(l, s, o, length));
      TilesExtend(sys.extents[s], x, e);
      LoggedLast(sys.extents[s], e);
      forall k' | k' in sys'.manager.mappings ensures MappingLogged(sys', k') {
        forall o' | o' in m.mappings[k'].logicalToPhysical && m.mappings[k'].stream == s
          ensures IsLogged(sys'.extents[s], k', o', m.mappings[k'].logicalToPhysical[o'])
        {
          assert MappingLogged(sys, k');
          LoggedExtend(sys.extents[s], e, k', o', m.mappings[k'].logicalToPhysical[o']);
        }
      }
    }
  }

  lemma StepKeepsInv(sys: System, c: Limits, e: Event)
    requires Inv(sys)
    ensures Inv(Step(sys, c, e))
  {
    hide Inv;
    hide Step;
    match e
    case DoMap(l, s, o, length) =>
      MapKeepsInv(sys, c, l, s, o, length);
    case DoRegisterPhysical(s) => RegisterKeepsInv(sys, c, s);
    case _ => OtherStepKeepsInv(sys, c, e);
  }

  lemma OtherStepKeepsInv(sys: System, c: Limits, e: Event)
    requires Inv(sys) && (e.DoRegisterLogical? || e.DoCreateMapping? || e.DoExpire?)
    ensures Inv(Step(sys, c, e))
  {
    hide Tiles;
    hide KeyOf;
    hide IsLogged;
    hide RegisterPhysical;
    hide ToPhysical;
    var sys' := Step(sys, c, e);
    assert StreamsTiled(sys');
    forall k | k in sys'.manager.mappings ensures MappingLogged(sys', k) {
      assert k in sys.manager.mappings ==> MappingLogged(sys, k);
    }
  }

  lemma RegisterKeepsInv(sys: System, c: Limits, s: Stream)
    requires Inv(sys)
    ensures Inv(Step(sys, c, DoRegisterPhysical(s)))
  {
    hide KeyOf;
    hide IsLogged;
    var sys' := Step(sys, c, DoRegisterPhysical(s));
    forall k | k in sys'.manager.mappings ensures MappingLogged(sys', k) {
      assert MappingLogged(sys, k);
    }
  }

  function Run(sys: System, c: Limits, es: seq<Event>): System
    requires Inv(sys)
    decreases |es|
  {
    if es == [] then sys
    else
      StepKeepsInv(sys, c, es[0]);
      Run(Step(sys, c, es[0]), c, es[1..])
  }

  lemma {:induction false} RunKeepsInv(sys: System, c: Limits, es: seq<Event>)
    requires Inv(sys)
    ensures Inv(Run(sys, c, es))
    decreases |es|
  {
    hide Inv;
    hide Step;
    if es != [] {
      StepKeepsInv(sys, c, es[0]);
      RunKeepsInv(Step(sys, c, es[0]), c, es[1..]);
    }
  }

  /** Identifiers are real, the configured numbers of streams are not exceeded, and mappings join
      registered streams. */
  ghost predicate Registered(m: Manager, c: Limits)
  {
    && 0 !in m.logical
    && (|m.logical| <= c.maxLogicalStreams || m.logical == {})
    && (forall s :: s in m.physical ==> s.pathID != "" && s.realStreamID != 0)
    && (|m.physical| <= c.maxPhysicalStreams || m.physical == map[])
    && (forall k :: k in m.mappings ==>
          m.mappings[k].logicalStreamID in m.logical && m.mappings[k].stream in m.physical)
  }

  /** Registering keeps this, and succeeds exactly on a new identifier while there is room. */
  lemma RegistrationKeepsLimits(m: Manager, c: Limits, id: nat)
    requires Registered(m, c)
    ensures var (m', status) := RegisterLogical(m, c, id);
      && Registered(m', c)
      && m'.logical == (if status == Ok then m.logical + {id} else m.logical)
      && (status == Ok <==> id != 0 && id !in m.logical && |m.logical| < c.maxLogicalStreams)
      && (status == InvalidID <==> id == 0)
      && (status == AlreadyExists <==> id in m.logical)
      && status != NotRegistered
      && m'.physical == m.physical && m'.mappings == m.mappings
  {
  }

  lemma PhysicalRegistrationKeepsLimits(m: Manager, c: Limits, s: Stream)
    requires Registered(m, c)
    ensures var (m', status) := RegisterPhysical(m, c, s);
      && Registered(m', c)
      && (status == Ok <==>
            s.pathID != "" && s.realStreamID != 0 && s !in m.physical && |m.physical| < c.maxPhysicalStreams)
      && (status == InvalidID <==> s.pathID == "" || s.realStreamID == 0)
      && (status == AlreadyExists <==> s in m.physical)
      && status != NotRegistered
      && m'.logical == m.logical && m'.mappings == m.mappings
      && m'.physical == (if status == Ok then m.physical[s := Physical(0, 0)] else m.physical)
  {
    SizeAfterSet(m.physical, s, Physical(0, 0));
  }

  lemma MapKeepsLimits(sys: System, c: Limits, l: nat, s: Stream, o: nat, length: nat)
    requires Inv(sys) && Registered(sys.manager, c)
    ensures Registered(Step(sys, c, DoMap(l, s, o, length)).manager, c)
  {
    var m := sys.manager;
    if Allocates(m, l, s, o) {
      MappingIsForStream(m, l, s);
      SizeAfterSet(m.physical, s, Step(sys, c, DoMap(l, s, o, length)).manager.physical[s]);
    }
  }

  lemma StepKeepsLimits(sys: System, c: Limits, e: Event)
    requires Inv(sys) && Registered(sys.manager, c)
    ensures Registered(Step(sys, c, e).manager, c)
  {
    match e
    case DoRegisterLogical(id) => RegistrationKeepsLimits(sys.manager, c, id);
    case DoRegisterPhysical(s) => PhysicalRegistrationKeepsLimits(sys.manager, c, s);
    case DoMap(l, s, o, length) => MapKeepsLimits(sys, c, l, s, o, length);
    case _ =>
  }

  lemma {:induction false} RunKeepsLimits(sys: System, c: Limits, es: seq<Event>)
    requires Inv(sys) && Registered(sys.manager, c)
    ensures Registered(Run(sys, c, es).manager, c)
    decreases |es|
  {
    hide Inv;
    hide Registered;
    hide Step;
    if es != [] {
      StepKeepsInv(sys, c, es[0]);
      StepKeepsLimits(sys, c, es[0]);
      RunKeepsLimits(Step(sys, c, es[0]), c, es[1..]);
    }
  }

  /** After every run no stream has identifier zero or an empty path, the limits are respected, and
      every mapping joins registered streams. */
  lemma AlwaysRegistered(c: Limits, es: seq<Event>)
    ensures Registered(Run(Init(), c, es).manager, c)
  {
    RunKeepsLimits(Init(), c, es);
  }

  // ---------------------------------------------------------------------------
  // What the tiling means

  lemma {:induction false} TilesAreOrdered(es: seq<Extent>, n: nat, i: nat, j: nat)
    requires Tiles(es, n) && i <= j < |es|
    ensures es[j].start + es[j].length <= n
    ensures i < j ==> es[i].start + es[i].length <= es[j].start
  {
    var front, last := es[..|es| - 1], es[|es| - 1];
    if j < |es| - 1 {
      TilesAreOrdered(front, last.start, i, j);
    } else if i < j {
      TilesAreOrdered(front, last.start, i, i);
    }
  }

  lemma {:induction false} TilesCover(es: seq<Extent>, n: nat, x: nat) returns (i: nat)
    requires Tiles(es, n) && x < n
    ensures i < |es| && es[i].start <= x < es[i].start + es[i].length
  {
    var front, last := es[..|es| - 1], es[|es| - 1];
    if x >= last.start {
      i := |es| - 1;
    } else {
      i := TilesCover(front, last.start, x);
    }
  }

  /** On every real stream, whatever logical streams share it, the ranges allocated are disjoint,
      and together they are [0, NextWriteOffset), which is also the number of bytes written. */
  lemma AllocationsTile(c: Limits, es: seq<Event>, s: Stream)
    requires s in Run(Init(), c, es).manager.physical
    ensures var sys := Run(Init(), c, es);
      && s in sys.extents
      && var log, p := sys.extents[s], sys.manager.physical[s];
      && p.bytesWritten == p.nextWriteOffset
      && (forall i, j :: 0 <= i < j < |log| ==> log[i].start + log[i].length <= log[j].start)
      && (forall x :: 0 <= x < p.nextWriteOffset <==> InSome(log, x))
  {
    RunKeepsInv(Init(), c, es);
    var sys := Run(Init(), c, es);
    hide Run;
    var log, p := sys.extents[s], sys.manager.physical[s];
    forall i, j | 0 <= i < j < |log| ensures log[i].start + log[i].length <= log[j].start {
      TilesAreOrdered(log, p.nextWriteOffset, i, j);
    }
    forall x ensures 0 <= x < p.nextWriteOffset <==> InSome(log, x) {
      InSomeIff(log, p.nextWriteOffset, x);
    }
  }

  ghost predicate InSome(log: seq<Extent>, x: int)
  {
    exists i :: 0 <= i < |log| && log[i].start <= x < log[i].start + log[i].length
  }

  lemma InSomeIff(log: seq<Extent>, n: nat, x: int)
    requires Tiles(log, n)
    ensures 0 <= x < n <==> InSome(log, x)
  {
    if 0 <= x < n {
      var i := TilesCover(log, n, x);
    }
    if InSome(log, x) {
      var i :| 0 <= i < |log| && log[i].start <= x < log[i].start + log[i].length;
      TilesAreOrdered(log, n, i, i);
    }
  }

  // ---------------------------------------------------------------------------
  // The maps of a run

  ghost predicate MappingInverse(m: Manager, k: string)
    requires k in m.mappings && m.mappings[k].stream in m.physical
  {
    var g := m.mappings[k];
    && IsInverse(g)
    && (forall x :: x in g.physicalToLogical ==> x < m.physical[g.stream].nextWriteOffset)
  }

  ghost predicate InverseInv(sys: System)
    requires Inv(sys)
  {
    forall k :: k in sys.manager.mappings ==> MappingInverse(sys.manager, k)
  }

  predicate IsPositive(e: Event)
  {
    e.DoMap? ==> e.length > 0
  }

  lemma MapKeepsInverse(sys: System, c: Limits, l: nat, s: Stream, o: nat, length: nat)
    requires Inv(sys) && InverseInv(sys) && length > 0
    requires Inv(Step(sys, c, DoMap(l, s, o, length)))
    ensures InverseInv(Step(sys, c, DoMap(l, s, o, length)))
  {
    hide Tiles;
    hide IsInverse;
    hide MappingLogged;
    var m, sys' := sys.manager, Step(sys, c, DoMap(l, s, o, length));
    if Allocates(m, l, s, o) {
      MappingIsForStream(m, l, s);
      var k := KeyOf(l, s);
      BindKeepsInverseIff(m.mappings[k], o, m.physical[s].nextWriteOffset);
      forall k' | k' in sys'.manager.mappings ensures MappingInverse(sys'.manager, k') {
        assert MappingInverse(m, k');
      }
    }
  }

  lemma OtherStepKeepsInverse(sys: System, c: Limits, e: Event, k: string)
    requires Inv(sys) && !e.DoMap? && Inv(Step(sys, c, e)) && k in Step(sys, c, e).manager.mappings
    requires k in sys.manager.mappings ==> MappingInverse(sys.manager, k)
    ensures MappingInverse(Step(sys, c, e).manager, k)
  {
    hide Tiles;
    hide MappingLogged;
    hide KeyOf;
  }

  lemma StepKeepsInverse(sys: System, c: Limits, e: Event)
    requires Inv(sys) && InverseInv(sys) && IsPositive(e)
    requires Inv(Step(sys, c, e))
    ensures InverseInv(Step(sys, c, e))
  {
    if e.DoMap? {
      MapKeepsInverse(sys, c, e.l, e.s, e.o, e.length);
    } else {
      hide Tiles;
      hide MappingLogged;
      hide MappingInverse;
      hide KeyOf;
      hide Step;
      forall k | k in Step(sys, c, e).manager.mappings ensures MappingInverse(Step(sys, c, e).manager, k) {
        OtherStepKeepsInverse(sys, c, e, k);
      }
    }
  }

  lemma {:induction false} RunKeepsInverse(sys: System, c: Limits, es: seq<Event>)
    requires Inv(sys) && InverseInv(sys)
    requires forall i :: 0 <= i < |es| ==> IsPositive(es[i])
    ensures Inv(Run(sys, c, es)) && InverseInv(Run(sys, c, es))
    decreases |es|
  {
    hide Inv;
    hide InverseInv;
    hide Step;
    if es != [] {
      StepKeepsInv(sys, c, es[0]);
      StepKeepsInverse(sys, c, es[0]);
      RunKeepsInverse(Step(sys, c, es[0]), c, es[1..]);
    }
  }

  /** While every length mapped is positive, the two maps of every mapping are inverse. */
  lemma MapsAreInverse(c: Limits, es: seq<Event>)
    requires forall i :: 0 <= i < |es| ==> IsPositive(es[i])
    ensures var m := Run(Init(), c, es).manager; forall k :: k in m.mappings ==> IsInverse(m.mappings[k])
  {
    RunKeepsInverse(Init(), c, es);
    var m := Run(Init(), c, es).manager;
    forall k | k in m.mappings ensures IsInverse(m.mappings[k]) {
      assert MappingInverse(m, k);
    }
  }

  /** The maps of every mapping are inverse. */
  ghost predicate AllInverse(sys: System)
  {
    forall k :: k in sys.manager.mappings ==> IsInverse(sys.manager.mappings[k])
  }

  /** What a caller can look up before a call that allocates: the physical offset it will take is not
      yet bound in the mapping. */
  predicate KeepsInverse(sys: System, e: Event)
    requires Inv(sys)
  {
    e.DoMap? && Allocates(sys.manager, e.l, e.s, e.o) ==>
      (MappingIsForStream(sys.manager, e.l, e.s);
       ToLogical(sys.manager, e.l, e.s, sys.manager.physical[e.s].nextWriteOffset) == NotFound)
  }

  lemma MapKeepsAllInverseIff(sys: System, c: Limits, l: nat, s: Stream, o: nat, length: nat)
    requires Inv(sys) && AllInverse(sys)
    ensures AllInverse(Step(sys, c, DoMap(l, s, o, length))) <==> KeepsInverse(sys, DoMap(l, s, o, length))
  {
    hide IsInverse;
    hide KeyOf;
    hide Tiles;
    hide MappingLogged;
    var m, sys' := sys.manager, Step(sys, c, DoMap(l, s, o, length));
    if Allocates(m, l, s, o) {
      MappingIsForStream(m, l, s);
      var k, x := KeyOf(l, s), m.physical[s].nextWriteOffset;
      BindKeepsInverseIff(m.mappings[k], o, x);
      assert sys'.manager.mappings == m.mappings[k := Bind(m.mappings[k], o, x)];
      assert AllInverse(sys') ==> IsInverse(sys'.manager.mappings[k]);
    }
  }

  /** Exactly which calls keep the maps of every mapping inverse, whatever lengths came before. */
  lemma StepKeepsAllInverseIff(sys: System, c: Limits, e: Event)
    requires Inv(sys) && AllInverse(sys)
    ensures AllInverse(Step(sys, c, e)) <==> KeepsInverse(sys, e)
  {
    match e
    case DoMap(l, s, o, length) => MapKeepsAllInverseIff(sys, c, l, s, o, length);
    case DoCreateMapping(l, s) => assert IsInverse(Mapping(l, s, map[], map[]));
    case _ =>
  }

  ghost predicate AlwaysInverse(sys: System, c: Limits, es: seq<Event>)
    requires Inv(sys)
    decreases |es|
  {
    && AllInverse(sys)
    && (es == [] || (StepKeepsInv(sys, c, es[0]); AlwaysInverse(Step(sys, c, es[0]), c, es[1..])))
  }

  ghost predicate EveryCallKeepsInverse(sys: System, c: Limits, es: seq<Event>)
    requires Inv(sys)
    decreases |es|
  {
    es == [] || (
      && KeepsInverse(sys, es[0])
      && (StepKeepsInv(sys, c, es[0]); EveryCallKeepsInverse(Step(sys, c, es[0]), c, es[1..])))
  }

  /** Over whole runs: the maps are inverse in every state exactly when every call that allocates
      finds its physical offset unbound in its mapping. */
  lemma {:induction false} AlwaysInverseIff(sys: System, c: Limits, es: seq<Event>)
    requires Inv(sys) && AllInverse(sys)
    ensures AlwaysInverse(sys, c, es) <==> EveryCallKeepsInverse(sys, c, es)
    ensures AlwaysInverse(sys, c, es) ==> AllInverse(Run(sys, c, es))
    decreases |es|
  {
    hide Inv;
    hide AllInverse;
    hide KeepsInverse;
    hide Step;
    if es != [] {
      StepKeepsInv(sys, c, es[0]);
      StepKeepsAllInverseIff(sys, c, es[0]);
      if KeepsInverse(sys, es[0]) {
        AlwaysInverseIff(Step(sys, c, es[0]), c, es[1..]);
      }
    }
  }

  /** While the maps of a mapping are inverse, the physical offset that a call returns maps back to
      the logical offset it was given for, and asking again returns it again. */
  lemma MapsBack(sys: System, l: nat, s: Stream, o: nat, length: nat)
    requires Inv(sys) && KeyOf(l, s) in sys.manager.mappings && IsInverse(sys.manager.mappings[KeyOf(l, s)])
    ensures var (m', r) := ToPhysical(sys.manager, l, s, o, length);
      && r.Offset? && Consistent(m') && ToPhysical(m', l, s, o, length).1 == r
      && ToLogical(m', l, s, r.value) == Offset(o)
  {
    hide Tiles;
    hide MappingLogged;
    hide KeyOf;
    MappingIsForStream(sys.manager, l, s);
  }

  /** A call changes what is known about its own logical stream, path and real stream only. */
  lemma MapLeavesOthers(m: Manager, l: nat, s: Stream, o: nat, length: nat, l': nat, s': Stream, y: nat)
    requires Consistent(m) && (l', s') != (l, s)
    ensures ToLogical(ToPhysical(m, l, s, o, length).0, l', s', y) == ToLogical(m, l', s', y)
    ensures Allocates(ToPhysical(m, l, s, o, length).0, l', s', y) == Allocates(m, l', s', y)
  {
    KeyOfIsInjective(l, s, l', s');
  }

  /** A mapping of length zero takes no room: the next new logical offset always takes the same
      physical offset, and the first is no longer found from it. */
  lemma ZeroLengthLosesOffset(m: Manager, l: nat, s: Stream, o: nat, o': nat, length: nat)
    requires Consistent(m) && Allocates(m, l, s, o) && Allocates(m, l, s, o') && o != o'
    ensures var (m1, r) := ToPhysical(m, l, s, o, 0);
      && Consistent(m1)
      && var (m2, r') := ToPhysical(m1, l, s, o', length);
      && r.Offset? && r' == r
      && ToLogical(m1, l, s, r.value) == Offset(o) && ToLogical(m2, l, s, r.value) == Offset(o')
      && ToPhysical(m1, l, s, o, 0).1 == r
  {
    hide KeyOf;
    MappingIsForStream(m, l, s);
  }

  // ---------------------------------------------------------------------------
  // How long a mapping lives

  predicate HasMapping(m: Manager, l: nat, s: Stream)
  {
    KeyOf(l, s) in m.mappings
  }

  /** A mapping is created exactly when both streams are registered and have none yet; it starts
      without offsets, and the mappings of other streams stay. */
  lemma MappingIsCreatedIff(m: Manager, l: nat, s: Stream, l': nat, s': Stream)
    ensures var (m', status) := CreateMapping(m, l, s);
      && (status == Ok <==> l in m.logical && s in m.physical && !HasMapping(m, l, s))
      && (status == NotRegistered <==> l !in m.logical || s !in m.physical)
      && (status == Ok || status == NotRegistered || status == AlreadyExists)
      && (status != Ok ==> m' == m)
      && (status == Ok ==>
            HasMapping(m', l, s) && forall o :: Allocates(m', l, s, o) && ToLogical(m', l, s, o) == NotFound)
      && ((l', s') != (l, s) ==>
            (HasMapping(m', l', s') <==> HasMapping(m, l', s'))
            && (HasMapping(m, l', s') ==> m'.mappings[KeyOf(l', s')] == m.mappings[KeyOf(l', s')]))
  {
    KeyOfIsInjective(l, s, l', s');
  }

  predicate CreatesMapping(m: Manager, e: Event, l: nat, s: Stream)
  {
    e == DoCreateMapping(l, s) && l in m.logical && s in m.physical
  }

  predicate EndsMapping(e: Event, l: nat, s: Stream)
  {
    e.DoExpire? && KeyOf(l, s) in e.keys
  }

  /** Whether a mapping that lives at the start, or not, lives at the end. */
  predicate LivesAfter(sys: System, c: Limits, es: seq<Event>, l: nat, s: Stream, lives: bool)
    requires Inv(sys)
    decreases |es|
  {
    if es == [] then lives
    else
      StepKeepsInv(sys, c, es[0]);
      LivesAfter(Step(sys, c, es[0]), c, es[1..], l, s,
                 (lives && !EndsMapping(es[0], l, s)) || CreatesMapping(sys.manager, es[0], l, s))
  }

  lemma StepMovesMapping(sys: System, c: Limits, e: Event, l: nat, s: Stream)
    requires Inv(sys)
    ensures HasMapping(Step(sys, c, e).manager, l, s)
       <==> (HasMapping(sys.manager, l, s) && !EndsMapping(e, l, s)) || CreatesMapping(sys.manager, e, l, s)
  {
    match e
    case DoCreateMapping(l', s') => KeyOfIsInjective(l, s, l', s');
    case DoMap(l', s', o, length) =>
      if Allocates(sys.manager, l', s', o) {
        MappingIsForStream(sys.manager, l', s');
      }
    case _ =>
  }

  /** Over every run a mapping exists exactly from its creation for registered streams to its next
      expiry, whatever happens to other streams. */
  lemma {:induction false} MappingLivesIff(sys: System, c: Limits, es: seq<Event>, l: nat, s: Stream)
    requires Inv(sys)
    ensures HasMapping(Run(sys, c, es).manager, l, s) <==> LivesAfter(sys, c, es, l, s, HasMapping(sys.manager, l, s))
    decreases |es|
  {
    hide Inv, Step, HasMapping, EndsMapping, CreatesMapping;
    if es != [] {
      StepKeepsInv(sys, c, es[0]);
      StepMovesMapping(sys, c, es[0], l, s);
      MappingLivesIff(Step(sys, c, es[0]), c, es[1..], l, s);
    }
  }

  /** Offsets are served exactly while the mapping exists. */
  lemma MapsIffMapped(m: Manager, l: nat, s: Stream, o: nat, length: nat)
    requires Consistent(m)
    ensures ToPhysical(m, l, s, o, length).1.Offset? <==> HasMapping(m, l, s)
    ensures !HasMapping(m, l, s) ==> ToPhysical(m, l, s, o, length).0 == m
  {
  }

  // ---------------------------------------------------------------------------
  // The manager object

  class OffsetManager {
    var logicalOffsets: set<nat>
    var physicalOffsets: map<Stream, Physical>
    var offsetMappings: map<string, Mapping>
    const config: Limits

    function View(): Manager
      reads this
    {
      Manager(logicalOffsets, physicalOffsets, offsetMappings)
    }

    constructor (config: Limits)
      ensures View() == Manager({}, map[], map[]) && this.config == config
    {
      logicalOffsets, physicalOffsets, offsetMappings := {}, map[], map[];
      this.config := config;
    }

    method RegisterLogicalStream(logicalStreamID: nat) returns (status: Status)
      modifies this
      ensures (View(), status) == RegisterLogical(old(View()), config, logicalStreamID)
      ensures status == Ok <==>
              && logicalStreamID != 0
              && logicalStreamID !in old(logicalOffsets)
              && |old(logicalOffsets)| < config.maxLogicalStreams
      ensures old(Registered(View(), config)) ==> Registered(View(), config)
    {
      if Registered(View(), config) {
        RegistrationKeepsLimits(View(), config, logicalStreamID);
      }
      if logicalStreamID == 0 {
        return InvalidID;
      }
      if logicalStreamID in logicalOffsets {
        return AlreadyExists;
      }
      if |logicalOffsets| >= config.maxLogicalStreams {
        return LimitReached;
      }
      logicalOffsets := logicalOffsets + {logicalStreamID};
      status := Ok;
    }

    method RegisterPhysicalStream(pathID: string, realStreamID: nat) returns (status: Status)
      modifies this
      ensures (View(), status) == RegisterPhysical(old(View()), config, Stream(pathID, realStreamID))
      ensures old(Registered(View(), config)) ==> Registered(View(), config)
    {
      if Registered(View(), config) {
        PhysicalRegistrationKeepsLimits(View(), config, Stream(pathID, realStreamID));
      }
      if pathID == "" {
        return InvalidID;
      }
      if realStreamID == 0 {
        return InvalidID;
      }
      var s := Stream(pathID, realStreamID);
      if s in physicalOffsets {
        return AlreadyExists;
      }
      if |physicalOffsets| >= config.maxPhysicalStreams {
        return LimitReached;
      }
      physicalOffsets := physicalOffsets[s := Physical(0, 0)];
      status := Ok;
    }

    method CreateOffsetMapping(logicalStreamID: nat, pathID: string, realStreamID: nat) returns (status: Status)
      modifies this
      ensures (View(), status) == CreateMapping(old(View()), logicalStreamID, Stream(pathID, realStreamID))
    {
      if logicalStreamID !in logicalOffsets {
        return NotRegistered;
      }
      var s := Stream(pathID, realStreamID);
      if s !in physicalOffsets {
        return NotRegistered;
      }
      var mappingKey := Key(logicalStreamID, pathID, realStreamID);
      if mappingKey in offsetMappings {
        return AlreadyExists;
      }
      offsetMappings := offsetMappings[mappingKey := Mapping(logicalStreamID, s, map[], map[])];
      status := Ok;
    }

    method MapLogicalToPhysical(logicalStreamID: nat, pathID: string, realStreamID: nat, logicalOffset: nat,
                                dataLength: nat)
      returns (physicalOffset: Found)
      requires Consistent(View())
      modifies this
      ensures (View(), physicalOffset)
           == ToPhysical(old(View()), logicalStreamID, Stream(pathID, realStreamID), logicalOffset, dataLength)
      ensures Consistent(View())
    {
      var s := Stream(pathID, realStreamID);
      var mappingKey := Key(logicalStreamID, pathID, realStreamID);
      if mappingKey !in offsetMappings {
        return NotFound;
      }
      MappingIsForStream(View(), logicalStreamID, s);
      var mapping := offsetMappings[mappingKey];
      var physical := physicalOffsets[s];
      if logicalOffset in mapping.logicalToPhysical {
        return Offset(mapping.logicalToPhysical[logicalOffset]);
      }
      var offset := physical.nextWriteOffset;
      mapping := mapping.(logicalToPhysical := mapping.logicalToPhysical[logicalOffset := offset],
                          physicalToLogical := mapping.physicalToLogical[offset := logicalOffset]);
      physical := Physical(physical.nextWriteOffset + dataLength, physical.bytesWritten + dataLength);
      offsetMappings := offsetMappings[mappingKey := mapping];
      physicalOffsets := physicalOffsets[s := physical];
      physicalOffset := Offset(offset);
    }

    method MapPhysicalToLogical(logicalStreamID: nat, pathID: string, realStreamID: nat, physicalOffset: nat)
      returns (logicalOffset: Found)
      ensures logicalOffset == ToLogical(View(), logicalStreamID, Stream(pathID, realStreamID), physicalOffset)
    {
      var mappingKey := Key(logicalStreamID, pathID, realStreamID);
      if mappingKey !in offsetMappings {
        return NotFound;
      }
      var mapping := offsetMappings[mappingKey];
      if physicalOffset !in mapping.physicalToLogical {
        return NotFound;
      }
      logicalOffset := Offset(mapping.physicalToLogical[physicalOffset]);
    }
  }
}
