/** Table locks (crates/elyra-engine/src/lockmgr.rs). */
module LockMgr {
  datatype Mode = Shared | Exclusive

  datatype TableState = TableState(readers: nat, writer: bool)

  /**
   * A lock on its way. `Held`: taken, and if explicit not yet counted. `Counted`: an explicit one, counted.
   * `Released`: given back, the explicit counter not yet lowered.
   */
  datatype Phase = Held | Counted | Released

  datatype Guard = Guard(table: string, mode: Mode, explicit: bool, phase: Phase)

  /** What any session may do next; each is one atomic action on the shared manager. */
  datatype Step =
    | Take(id: nat, table: string, mode: Mode, explicit: bool)
    | Count(id: nat)
    | Release(id: nat)
    | Uncount(id: nat)

  // -------------------------------------------------------------------- what is held

  /** The guards that hold `table` in `mode`. */
  ghost function Holders(guards: map<nat, Guard>, table: string, mode: Mode): set<nat> {
    set id | id in guards && guards[id].phase != Released && guards[id].table == table && guards[id].mode == mode
  }

  ghost function Counting(guards: map<nat, Guard>): set<nat> {
    set id | id in guards && guards[id].explicit && guards[id].phase != Held
  }

  ghost predicate TableOk(st: TableState, shared: set<nat>, exclusive: set<nat>) {
    && st.readers == |shared|
    && (if st.writer then |exclusive| == 1 && shared == {} else exclusive == {})
    && (st.writer || st.readers > 0)
  }

  /** An entry says who holds the table, and is there exactly when somebody does. */
  ghost predicate EntryOk(tables: map<string, TableState>, t: string, shared: set<nat>, exclusive: set<nat>) {
    if t in tables then TableOk(tables[t], shared, exclusive) else shared == {} && exclusive == {}
  }

  ghost predicate TablesOk(tables: map<string, TableState>, guards: map<nat, Guard>) {
    forall t :: EntryOk(tables, t, Holders(guards, t, Shared), Holders(guards, t, Exclusive))
  }

  /** Transient guards are never counted: they are only held or gone. */
  ghost predicate PhasesOk(guards: map<nat, Guard>) {
    forall id | id in guards && !guards[id].explicit :: guards[id].phase == Held
  }

  ghost predicate Inv(tables: map<string, TableState>, explicit: int, guards: map<nat, Guard>) {
    TablesOk(tables, guards) && PhasesOk(guards) && explicit == |Counting(guards)|
  }

  /** A lock may be taken: nobody holds the table exclusively, and nobody at all if it is to be exclusive. */
  ghost predicate Grantable(guards: map<nat, Guard>, table: string, mode: Mode) {
    Holders(guards, table, Exclusive) == {} && (mode == Exclusive ==> Holders(guards, table, Shared) == {})
  }

  /** What a step does to the guards alone. A step that is not possible is not taken. */
  ghost function Next(guards: map<nat, Guard>, step: Step): map<nat, Guard> {
    match step
    case Take(id, table, mode, ex) =>
      if id !in guards && Grantable(guards, table, mode) then guards[id := Guard(table, mode, ex, Held)] else guards
    case Count(id) =>
      if id in guards && guards[id].explicit
         && guards[id].phase == Held then guards[id := guards[id].(phase := Counted)] else guards
    case Release(id) =>
      if id !in guards then guards
      else if guards[id].explicit && guards[id].phase == Counted then guards[id := guards[id].(phase := Released)]
      else if !guards[id].explicit && guards[id].phase == Held then guards - {id}
      else guards
    case Uncount(id) => if id in guards && guards[id].phase == Released then guards - {id} else guards
  }

  ghost function After(guards: map<nat, Guard>, steps: seq<Step>): map<nat, Guard> {
    if steps == [] then guards else Next(After(guards, steps[..|steps| - 1]), steps[|steps| - 1])
  }

  // --------------------------------------------------------------- what each step keeps

  lemma {:induction false} HoldersTaken(guards: map<nat, Guard>, id: nat, g: Guard, t: string, mode: Mode)
    requires id !in guards && g.phase == Held
    ensures Holders(guards[id := g], t, mode) == Holders(guards, t, mode) +
                                                 (if g.table == t && g.mode == mode then {id} else {})
    ensures id !in Holders(guards, t, mode)
    ensures Counting(guards[id := g]) == Counting(guards)
  {
  }

  lemma {:induction false} HoldersGone(guards: map<nat, Guard>, id: nat, guards': map<nat, Guard>, t: string,
                                       mode: Mode)
    requires id in guards && guards[id].phase != Released
    requires guards' == guards - {id} || guards' == guards[id := guards[id].(phase := Released)]
    ensures Holders(guards', t, mode) == Holders(guards, t, mode) - {id}
    ensures id in Holders(guards, t, mode) <==> guards[id].table == t && guards[id].mode == mode
  {
  }

  lemma {:induction false} Only(s: set<nat>, x: nat)
    requires |s| == 1 && x in s
    ensures s == {x}
  {
    assert |s - {x}| == 0;
    assert s == (s - {x}) + {x};
  }

  /** An exclusive lock shuts out every other holder of the table, in either mode. */
  lemma {:induction false} ExclusiveExcludes(tables: map<string, TableState>, explicit: int, guards: map<nat, Guard>,
                                             id: nat, other: nat)
    requires Inv(tables, explicit, guards) && id in guards && other in guards && id != other
    requires guards[id].phase != Released && guards[id].mode == Exclusive
    ensures guards[other].table == guards[id].table ==> guards[other].phase == Released
  {
    var t := guards[id].table;
    assert id in Holders(guards, t, Exclusive);
    assert EntryOk(tables, t, Holders(guards, t, Shared), Holders(guards, t, Exclusive));
    Only(Holders(guards, t, Exclusive), id);
    assert other !in Holders(guards, t, Exclusive) && other !in Holders(guards, t, Shared);
  }

  class LockManager {
    var tables: map<string, TableState>
    var explicit: int
    /** Every guard of any session, between its taking and its last action. */
    var guards: map<nat, Guard>

    ghost predicate Valid()
      reads this
    {
      Inv(tables, explicit, guards)
    }

    constructor ()
      ensures Valid() && guards == map[] && explicit == 0
    {
      tables := map[];
      explicit := 0;
      guards := map[];
    }

    /** Takes the lock if nobody is in the way; a lock refused leaves the table of locks as it was. */
    method TryTake(id: nat, table: string, mode: Mode, ex: bool) returns (ok: bool)
      requires Valid() && id !in guards
      modifies this`tables, this`guards
      ensures Valid()
      ensures ok <==> Grantable(old(guards), table, mode)
      ensures guards == if ok then old(guards)[id := Guard(table, mode, ex, Held)] else old(guards)
      ensures !ok ==> tables == old(tables)
    {
      var st := if table in tables then tables[table] else TableState(0, false);
      ghost var before := tables;
      assert EntryOk(tables, table, Holders(guards, table, Shared), Holders(guards, table, Exclusive));
      tables := tables[table := st];
      match mode {
        case Shared => ok := !st.writer;
        case Exclusive => ok := !st.writer && st.readers == 0;
      }
      if ok {
        tables := tables[table := if mode == Shared then st.(readers := st.readers + 1) else st.(writer := true)];
        TakeKeeps(before, guards, id, Guard(table, mode, ex, Held), tables);
        guards := guards[id := Guard(table, mode, ex, Held)];
      } else {
        assert table in before;
      }
    }

    /** An explicit lock is counted after it is taken. */
    method CountOne(id: nat)
      requires Valid() && id in guards && guards[id].explicit && guards[id].phase == Held
      modifies this`explicit, this`guards
      ensures Valid() && explicit == old(explicit) + 1
              && guards == old(guards)[id := old(guards)[id].(phase := Counted)]
    {
      CountKeeps(tables, guards, id);
      guards := guards[id := guards[id].(phase := Counted)];
      explicit := explicit + 1;
    }

    /** Gives a lock back: the counts it lowers are never zero, and an entry nobody holds goes. */
    method GiveBack(id: nat, table: string, mode: Mode)
      requires Valid() && id in guards && guards[id].table == table && guards[id].mode == mode
      requires guards[id].phase == if guards[id].explicit then Counted else Held
      modifies this`tables, this`guards
      ensures Valid()
      ensures guards == if old(guards)[id].explicit
                        then old(guards)[id := old(guards)[id].(phase := Released)] else old(guards) - {id}
      ensures table in old(tables) && (mode == Shared ==> old(tables)[table].readers > 0)
              && (mode == Exclusive ==> old(tables)[table].writer)
    {
      var guards' := if guards[id].explicit then guards[id := guards[id].(phase := Released)] else guards - {id};
      HolderKnown(tables, guards, id);
      var st := tables[table];
      st := if mode == Shared then st.(readers := st.readers - 1) else st.(writer := false);
      ghost var before := tables;
      tables := tables[table := st];
      if !st.writer && st.readers == 0 {
        tables := tables - {table};
      }
      ReleaseKeeps(before, guards, id, guards', tables);
      guards := guards';
    }

    /** The explicit counter is lowered last. */
    method UncountOne(id: nat)
      requires Valid() && id in guards && guards[id].phase == Released
      modifies this`explicit, this`guards
      ensures Valid() && guards == old(guards) - {id} && explicit == old(explicit) - 1 && explicit >= 0
    {
      UncountKeeps(tables, guards, id);
      guards := guards - {id};
      explicit := explicit - 1;
    }

    /** Any interleaving of any sessions' steps: the manager's counts follow who holds what. */
    method Run(steps: seq<Step>)
      requires Valid()
      modifies this
      ensures Valid() && guards == After(old(guards), steps)
      ensures guards == map[] ==> tables == map[] && explicit == 0
    {
      for i := 0 to |steps|
        invariant Valid() && guards == After(old(guards), steps[..i])
      {
        assert steps[..i + 1][..i] == steps[..i];
        match steps[i] {
          case Take(id, table, mode, ex) =>
            if id !in guards {
              var _ := TryTake(id, table, mode, ex);
            }
          case Count(id) =>
            if id in guards && guards[id].explicit && guards[id].phase == Held {
              CountOne(id);
            }
          case Release(id) =>
            if id in guards && guards[id].phase == (if guards[id].explicit then Counted else Held) {
              GiveBack(id, guards[id].table, guards[id].mode);
            }
          case Uncount(id) =>
            if id in guards && guards[id].phase == Released {
              UncountOne(id);
            }
        }
      }
      assert steps[..|steps|] == steps;
      if guards == map[] { Nobody(tables, explicit, guards); }
    }
  }

  // ------------------------------------------------------------ the gate of the fast path

  /** An explicit lock is held, counted or not. */
  ghost predicate ExplicitHeld(guards: map<nat, Guard>) {
    exists id | id in guards :: guards[id].explicit && guards[id].phase != Released
  }

  ghost predicate SomeIn(guards: map<nat, Guard>, phase: Phase) {
    exists id | id in guards :: guards[id].explicit && guards[id].phase == phase
  }

  /**
   * `explicit_active` tells whether an explicit lock is held exactly when some explicit lock is counted, or none is
   * between its taking and its counting or between its release and its uncounting (or one is in each).
   */
  lemma {:induction false} ActiveTellsIff(tables: map<string, TableState>, explicit: int, guards: map<nat, Guard>)
    requires Inv(tables, explicit, guards)
    ensures (explicit > 0 <==> ExplicitHeld(guards)) <==>
            SomeIn(guards, Counted) || (SomeIn(guards, Held) <==> SomeIn(guards, Released))
  {
    assert explicit > 0 <==> SomeIn(guards, Counted) || SomeIn(guards, Released) by {
      if explicit > 0 {
        var id :| id in Counting(guards);
      }
      if id :| id in guards && guards[id].explicit && guards[id].phase != Held {
        assert id in Counting(guards);
      }
    }
    assert ExplicitHeld(guards) <==> SomeIn(guards, Counted) || SomeIn(guards, Held);
  }

  /** Just after it was taken, an explicit exclusive lock does not show in the counter. */
  method TakenUncounted(table: string) returns (m: LockManager)
    ensures m.Valid() && ExplicitHeld(m.guards) && m.explicit == 0
  {
    m := new LockManager();
    var ok := m.TryTake(0, table, Exclusive, true);
    assert ok && 0 in m.guards && m.guards[0].explicit;
  }

  // -------------------------------------------------------------------------- waiting

  /** A refused try: the clock after it, and what the others do until the next. */
  datatype Wait = Wait(now: nat, steps: seq<Step>)

  ghost predicate Avoids(steps: seq<Step>, id: nat) {
    forall i | 0 <= i < |steps| :: steps[i].id != id
  }

  /** Other sessions leave a session's guard alone. */
  lemma {:induction false} AvoidKeeps(guards: map<nat, Guard>, steps: seq<Step>, id: nat)
    requires Avoids(steps, id)
    ensures id in After(guards, steps) <==> id in guards
    ensures id in guards ==> After(guards, steps)[id] == guards[id]
  {
    if steps != [] {
      AvoidKeeps(guards, steps[..|steps| - 1], id);
      assert steps[|steps| - 1].id != id;
    }
  }

  /** What `After` gives, under a quantifier: the verifier does not unfold it by itself in the loop below. */
  ghost predicate Leads(a: map<nat, Guard>, steps: seq<Step>, b: map<nat, Guard>) {
    forall n: nat :: FoldedLeads(n, a, steps, b)
  }

  ghost predicate FoldedLeads(n: nat, a: map<nat, Guard>, steps: seq<Step>, b: map<nat, Guard>) {
    b == After(a, steps)
  }

  lemma {:induction false} LeadsIff(a: map<nat, Guard>, steps: seq<Step>, b: map<nat, Guard>)
    ensures Leads(a, steps, b) <==> b == After(a, steps)
  {
    if Leads(a, steps, b) {
      assert FoldedLeads(0, a, steps, b);
    }
  }

  /** The guards at every try: the first as found, each next one as the others' steps left them. */
  ghost predicate Tries(at: seq<map<nat, Guard>>, guards: map<nat, Guard>, waits: seq<Wait>) {
    && 0 < |at| <= |waits| && at[0] == guards
    && forall i | 0 <= i < |at| - 1 :: Leads(at[i], waits[i].steps, at[i + 1])
  }

  /** Every try but the last was refused, and in time. */
  ghost predicate Waited(at: seq<map<nat, Guard>>, waits: seq<Wait>, deadline: nat, table: string, mode: Mode) {
    |at| <= |waits| && forall i | 0 <= i < |at| - 1 :: !Grantable(at[i], table, mode) && waits[i].now < deadline
  }

  /** One wait: the others' steps, which leave the session's own guard alone. */
  method Pass(m: LockManager, id: nat, steps: seq<Step>)
    requires m.Valid() && Avoids(steps, id)
    modifies m
    ensures m.Valid() && Leads(old(m.guards), steps, m.guards)
    ensures id in m.guards <==> id in old(m.guards)
    ensures id in m.guards ==> m.guards[id] == old(m.guards)[id]
  {
    AvoidKeeps(m.guards, steps, id);
    m.Run(steps);
    LeadsIff(old(m.guards), steps, m.guards);
  }

  /**
   * `acquire`: tries, and after every wait tries again, until the lock is granted or the deadline has passed. It
   * takes the first chance there is; `between` is what the others do between the taking and the counting.
   */
  method Acquire(m: LockManager, id: nat, table: string, mode: Mode, ex: bool, deadline: nat, waits: seq<Wait>,
                 between: seq<Step>)
    returns (ok: bool, ghost at: seq<map<nat, Guard>>)
    requires m.Valid() && id !in m.guards && Avoids(between, id)
    requires forall i | 0 <= i < |waits| :: Avoids(waits[i].steps, id)
    requires waits != [] && waits[|waits| - 1].now >= deadline
    modifies m
    ensures m.Valid() && Tries(at, old(m.guards), waits) && Waited(at, waits, deadline, table, mode)
    ensures ok <==> Grantable(at[|at| - 1], table, mode)
    ensures !ok ==> waits[|at| - 1].now >= deadline && m.guards == at[|at| - 1]
    ensures ok ==> id in m.guards && m.guards[id] == Guard(table, mode, ex, if ex then Counted else Held)
  {
    at := [m.guards];
    var n := 0;
    ghost var guards := m.guards;
    while true
      invariant m.Valid() && n + 1 == |at| <= |waits| && m.guards == at[n] && id !in m.guards
      invariant Tries(at, guards, waits) && Waited(at, waits, deadline, table, mode)
      decreases |waits| - n
    {
      ok := m.TryTake(id, table, mode, ex);
      if ok {
        if ex {
          Pass(m, id, between);
          m.CountOne(id);
        }
        return;
      }
      if waits[n].now >= deadline {
        return;
      }
      Pass(m, id, waits[n].steps);
      at := at + [m.guards];
      n := n + 1;
    }
  }

  /** With no guard left there is no entry and nothing counted. */
  lemma {:induction false} Nobody(tables: map<string, TableState>, explicit: int, guards: map<nat, Guard>)
    requires Inv(tables, explicit, guards) && guards == map[]
    ensures tables == map[] && explicit == 0
  {
    assert Counting(guards) == {};
    forall t ensures t !in tables {
      assert EntryOk(tables, t, Holders(guards, t, Shared), Holders(guards, t, Exclusive));
      assert Holders(guards, t, Shared) == {} && Holders(guards, t, Exclusive) == {};
    }
  }

  lemma {:induction false} HolderKnown(tables: map<string, TableState>, guards: map<nat, Guard>, id: nat)
    requires TablesOk(tables, guards) && id in guards && guards[id].phase != Released
    ensures
      var t := guards[id].table;
      t in tables &&
      (if guards[id].mode == Shared then tables[t].readers > 0 && !tables[t].writer else tables[t].writer)
  {
    var g := guards[id];
    assert id in Holders(guards, g.table, g.mode);
    assert EntryOk(tables, g.table, Holders(guards, g.table, Shared), Holders(guards, g.table, Exclusive));
    assert Holders(guards, g.table, Shared) != {} ==> |Holders(guards, g.table, Shared)| > 0;
  }

  lemma {:induction false} TakeKeeps(tables: map<string, TableState>, guards: map<nat, Guard>, id: nat, g: Guard,
                                     tables': map<string, TableState>)
    requires TablesOk(tables, guards) && PhasesOk(guards) && id !in guards && g.phase == Held
    requires
      var st := if g.table in tables then tables[g.table] else TableState(0, false);
      && !st.writer && (g.mode == Exclusive ==> st.readers == 0)
      && tables' == tables[g.table := if g.mode == Shared then st.(readers := st.readers + 1) else st.(writer := true)]
    ensures TablesOk(tables', guards[id := g]) && PhasesOk(guards[id := g])
            && Counting(guards[id := g]) == Counting(guards)
  {
    HoldersTaken(guards, id, g, g.table, Shared);
    var guards' := guards[id := g];
    forall t ensures EntryOk(tables', t, Holders(guards', t, Shared), Holders(guards', t, Exclusive)) {
      assert EntryOk(tables, t, Holders(guards, t, Shared), Holders(guards, t, Exclusive));
      HoldersTaken(guards, id, g, t, Shared);
      HoldersTaken(guards, id, g, t, Exclusive);
      TakeEntry(tables, g, tables', t, id, Holders(guards, t, Shared), Holders(guards, t, Exclusive));
    }
  }

  lemma {:induction false} TakeEntry(tables: map<string, TableState>, g: Guard, tables': map<string, TableState>,
                                     t: string, id: nat,
                                     shared: set<nat>, exclusive: set<nat>)
    requires EntryOk(tables, t, shared, exclusive) && id !in shared && id !in exclusive
    requires
      var st := if g.table in tables then tables[g.table] else TableState(0, false);
      && !st.writer && (g.mode == Exclusive ==> st.readers == 0)
      && tables' == tables[g.table := if g.mode == Shared then st.(readers := st.readers + 1) else st.(writer := true)]
    ensures EntryOk(tables', t, shared + (if g.table == t && g.mode == Shared then {id} else {}),
                    exclusive + (if g.table == t && g.mode == Exclusive then {id} else {}))
  {
    if g.table == t && g.mode == Exclusive {
      assert shared == {} && exclusive == {};
      assert exclusive + {id} == {id} && shared + {} == {};
    } else {
      assert exclusive + {} == exclusive;
      assert g.table != t ==> shared + {} == shared;
    }
  }

  lemma {:induction false} CountKeeps(tables: map<string, TableState>, guards: map<nat, Guard>, id: nat)
    requires TablesOk(tables, guards) && PhasesOk(guards) && id in guards && guards[id].explicit
             && guards[id].phase == Held
    ensures
      var guards' := guards[id := guards[id].(phase := Counted)];
      TablesOk(tables, guards') && PhasesOk(guards') && Counting(guards') == Counting(guards) + {id}
      && id !in Counting(guards)
  {
    var guards' := guards[id := guards[id].(phase := Counted)];
    forall t, mode ensures Holders(guards', t, mode) == Holders(guards, t, mode) {}
  }

  lemma {:induction false} ReleaseKeeps(tables: map<string, TableState>, guards: map<nat, Guard>, id: nat,
                                        guards': map<nat, Guard>,
                                        tables': map<string, TableState>)
    requires TablesOk(tables, guards) && PhasesOk(guards) && id in guards
    requires guards[id].phase == if guards[id].explicit then Counted else Held
    requires guards' == if guards[id].explicit then guards[id := guards[id].(phase := Released)] else guards - {id}
    requires guards[id].table in tables
    requires
      var st := tables[guards[id].table];
      && (guards[id].mode == Shared ==> st.readers > 0)
      && var st' := if guards[id].mode == Shared then st.(readers := st.readers - 1) else st.(writer := false);
      tables' == if !st'.writer && st'.readers == 0 then tables - {guards[id].table}
      else tables[guards[id].table := st']
    ensures TablesOk(tables', guards') && PhasesOk(guards') && Counting(guards') == Counting(guards)
  {
    forall t ensures EntryOk(tables', t, Holders(guards', t, Shared), Holders(guards', t, Exclusive)) {
      assert EntryOk(tables, t, Holders(guards, t, Shared), Holders(guards, t, Exclusive));
      ReleaseTable(tables, guards, id, guards', t);
      ReleaseEntry(tables, guards[id], tables', t, id, Holders(guards, t, Shared), Holders(guards, t, Exclusive));
    }
  }

  lemma {:induction false} ReleaseEntry(tables: map<string, TableState>, g: Guard, tables': map<string, TableState>,
                                        t: string, id: nat,
                                        shared: set<nat>, exclusive: set<nat>)
    requires EntryOk(tables, t, shared, exclusive) && g.table in tables
    requires (id in shared <==> g.table == t && g.mode == Shared)
             && (id in exclusive <==> g.table == t && g.mode == Exclusive)
    requires id in exclusive ==> exclusive == {id}
    requires
      var st := tables[g.table];
      && (g.mode == Shared ==> st.readers > 0)
      && var st' := if g.mode == Shared then st.(readers := st.readers - 1) else st.(writer := false);
      tables' == if !st'.writer && st'.readers == 0 then tables - {g.table} else tables[g.table := st']
    ensures EntryOk(tables', t, shared - {id}, exclusive - {id})
  {
    if g.table != t {
      assert shared - {id} == shared && exclusive - {id} == exclusive;
    } else if g.mode == Shared {
      assert |shared - {id}| == |shared| - 1 && exclusive - {id} == exclusive;
    } else {
      assert exclusive - {id} == {} && shared - {id} == shared;
    }
  }

  /** What a release does to the holders of one table. */
  lemma {:induction false} ReleaseTable(tables: map<string, TableState>, guards: map<nat, Guard>, id: nat,
                                        guards': map<nat, Guard>, t: string)
    requires TablesOk(tables, guards) && id in guards && guards[id].phase != Released
    requires guards' == guards - {id} || guards' == guards[id := guards[id].(phase := Released)]
    ensures
      var g := guards[id];
      var s, x := Holders(guards, t, Shared), Holders(guards, t, Exclusive);
      && Holders(guards', t, Shared) == s - {id} && Holders(guards', t, Exclusive) == x - {id}
      && (id in s <==> g.table == t && g.mode == Shared) && (id in x <==> g.table == t && g.mode == Exclusive)
      && (id in x ==> x == {id})
  {
    HoldersGone(guards, id, guards', t, Shared);
    HoldersGone(guards, id, guards', t, Exclusive);
    if id in Holders(guards, t, Exclusive) {
      assert EntryOk(tables, t, Holders(guards, t, Shared), Holders(guards, t, Exclusive));
      assert t in tables && tables[t].writer;
      Only(Holders(guards, t, Exclusive), id);
    }
  }

  lemma {:induction false} UncountKeeps(tables: map<string, TableState>, guards: map<nat, Guard>, id: nat)
    requires TablesOk(tables, guards) && PhasesOk(guards) && id in guards && guards[id].phase == Released
    ensures TablesOk(tables, guards - {id}) && PhasesOk(guards - {id})
    ensures id in Counting(guards) && Counting(guards - {id}) == Counting(guards) - {id}
  {
    forall t, mode ensures Holders(guards - {id}, t, mode) == Holders(guards, t, mode) {}
  }
}
