/**
 * Generation-tagged caches of schema answers, under every interleaving of readers and committers
 * (crates/elyra-engine/src/schemacache.rs and the definition and feature caches of catalog.rs).
 */
module SchemaCache {
  import opened Wrappers
  import opened Bytes
  import Scan

  /** A database id and a schema key. */
  type DbKey = (nat, bytes)
  type Contents = map<DbKey, bytes>

  /**
   * The committed states in commit order (`hist[c]` holds after commit `c`), and the commits whose
   * generation bump has happened, in bump order. The generation is the number of bumps. A commit's bump
   * comes some time after the commit, and concurrent commits may bump in any order.
   */
  datatype Log = Log(hist: seq<Contents>, bumped: seq<nat>) {
    ghost predicate Valid() {
      hist != [] && forall i | 0 <= i < |bumped| :: bumped[i] < |hist|
    }

    function Generation(): nat { |bumped| }

    function Current(): Contents requires hist != [] { hist[|hist| - 1] }

    /** Version `v` holds every commit whose bump was among the first `g`. */
    ghost predicate Covers(g: nat, v: nat) {
      g <= |bumped| && v < |hist| && forall i | 0 <= i < g :: bumped[i] <= v
    }

    ghost predicate Extends(older: Log) {
      older.hist <= hist && older.bumped <= bumped
    }
  }

  // -------------------------------------------------------------- what is read

  /** `get` of one key, or `feature_exists`: whether any key under a prefix exists. */
  datatype Query = Get(key: DbKey) | Exists(db: nat, prefix: bytes)

  datatype Answer = Value(v: Option<bytes>) | Flag(b: bool)

  ghost function Ask(q: Query, c: Contents): Answer {
    match q
    case Get(k) => Value(if k in c then Some(c[k]) else None)
    case Exists(db, prefix) => Flag(exists k | k in c :: k.0 == db && prefix <= k.1)
  }

  // `catalog::`, `meta::generation::` and `coldecl::` in ASCII.
  const CATALOG: bytes := [99, 97, 116, 97, 108, 111, 103, 58, 58]
  const GENERATION: bytes := [109, 101, 116, 97, 58, 58, 103, 101, 110, 101, 114, 97, 116, 105, 111, 110, 58, 58]
  const DECLARED: bytes := [99, 111, 108, 100, 101, 99, 108, 58, 58]

  /** What `load` puts together: definition and storage generation from one read, declared types from another. */
  datatype Definition = Definition(table: Answer, generation: Answer, declared: Answer)

  // ------------------------------------------------------------ readers' progress

  // A call's progress; `g` is the generation it loaded first.

  /** `get` or `feature_exists`. */
  datatype GetProc =
    | Tagged(q: Query, g: nat)
    | Missed(q: Query, g: nat)
    | Fetched(q: Query, g: nat, a: Answer)
    | Served(q: Query, g: nat, a: Answer)

  /** `keys`: a scan in batches, each its own storage read. */
  datatype KeysProc =
    | KeysTagged(p: DbKey, g: nat)
    | KeysScan(p: DbKey, g: nat, acc: seq<bytes>)
    | KeysFetched(p: DbKey, g: nat, acc: seq<bytes>)
    | KeysServed(p: DbKey, g: nat, acc: seq<bytes>)

  /** `load`, with the nested cached read of the declared types under its own generation `g2`. */
  datatype LoadProc =
    | LoadTagged(t: DbKey, e: nat, g: nat)
    | LoadMissed(t: DbKey, e: nat, g: nat)
    | LoadRead(t: DbKey, e: nat, g: nat, table: Answer, generation: Answer)
    | DeclTagged(t: DbKey, e: nat, g: nat, table: Answer, generation: Answer, g2: nat)
    | DeclMissed(t: DbKey, e: nat, g: nat, table: Answer, generation: Answer, g2: nat)
    | DeclFetched(t: DbKey, e: nat, g: nat, table: Answer, generation: Answer, g2: nat, a: Answer)
    | LoadReady(t: DbKey, e: nat, g: nat, def: Definition)
    | LoadServed(t: DbKey, e: nat, g: nat, result: Option<Definition>)

  /** The shared caches: single reads, key listings, table definitions (tagged with epoch and generation). */
  datatype State = State(
    log: Log,
    epoch: nat,
    answers: map<Query, (nat, Answer)>,
    lists: map<DbKey, (nat, seq<bytes>)>,
    defs: map<DbKey, ((nat, nat), Definition)>,
    gets: map<nat, GetProc>,
    listings: map<nat, KeysProc>,
    loads: map<nat, LoadProc>)

  const BATCH := 4096

  /** The keys under a prefix. */
  ghost function KeysUnder(c: Contents, p: DbKey): set<bytes> {
    set k | k in c && k.0 == p.0 && p.1 <= k.1 :: k.1
  }

  lemma {:induction false} UnderIff(c: Contents, p: DbKey, k: bytes)
    ensures k in KeysUnder(c, p) <==> (p.0, k) in c && p.1 <= k
  {
    if (p.0, k) in c && p.1 <= k {
      assert (p.0, k).1 == k;
    }
  }

  /** The next batch of a prefix scan. */
  ghost predicate Continues(c: Contents, p: DbKey, acc: seq<bytes>, batch: seq<bytes>) {
    Scan.IsBatch(BATCH, KeysUnder(c, p), Scan.LastOf(acc), batch)
  }

  ghost predicate Wanted(c: Contents, p: DbKey, acc: seq<bytes>, k: bytes) {
    (p.0, k) in c && p.1 <= k && (acc != [] ==> Less(acc[|acc| - 1], k))
  }

  function GenerationKey(t: DbKey): DbKey { (t.0, GENERATION + t.1) }
  function CatalogKey(t: DbKey): DbKey { (t.0, CATALOG + t.1) }
  function DeclaredKey(t: DbKey): DbKey { (t.0, DECLARED + t.1) }

  /** The three keys behind a table's definition, spelled out. */
  lemma {:induction false} KeysSpelled(t: DbKey)
    ensures CatalogKey(t) == (t.0, Spelled("catalog::") + t.1)
    ensures GenerationKey(t) == (t.0, Spelled("meta::generation::") + t.1)
    ensures DeclaredKey(t) == (t.0, Spelled("coldecl::") + t.1)
  {
    assert CATALOG == Spelled("catalog::") && GENERATION == Spelled("meta::generation::");
    assert DECLARED == Spelled("coldecl::");
  }

  // ------------------------------------------------------------------- the steps

  datatype SharedStep =
    | Commit(next: Contents)
    | Bump(c: nat)
    | BumpEpoch
    | Evict(answers: map<Query, (nat, Answer)>, lists: map<DbKey, (nat, seq<bytes>)>)

  datatype ReadStep = Begin(q: Query) | Lookup | Fetch | Insert

  datatype KeysStep = BeginKeys(p: DbKey) | LookupKeys | ScanKeys(batch: seq<bytes>) | InsertKeys

  datatype LoadStep = BeginLoad(t: DbKey) | LookupLoad | FetchLoad | InsertLoad

  datatype DeclStep = BeginDecl | LookupDecl | FetchDecl | InsertDecl

  /** A step of the shared state, or of the call `pid`. */
  datatype Step =
    | Shared(shared: SharedStep)
    | Read(pid: nat, read: ReadStep)
    | Keys(pid: nat, keys: KeysStep)
    | Load(pid: nat, load: LoadStep)
    | Decl(pid: nat, decl: DeclStep)

  ghost predicate NextShared(s: State, s': State, step: SharedStep) {
    match step
    case Commit(next) => s' == s.(log := s.log.(hist := s.log.hist + [next]))
    case Bump(c) => c < |s.log.hist| && s' == s.(log := s.log.(bumped := s.log.bumped + [c]))
    case BumpEpoch => s' == s.(epoch := s.epoch + 1)
    // The size limit clears a cache; any set of entries may go.
    case Evict(answers, lists) =>
      && s' == s.(answers := answers, lists := lists)
      && answers.Items <= s.answers.Items && lists.Items <= s.lists.Items
  }

  /** `schemacache::get` and `feature_exists`: tag, look up, read, store. */
  ghost predicate NextRead(s: State, s': State, pid: nat, step: ReadStep) {
    if step.Begin? then s' == s.(gets := s.gets[pid := Tagged(step.q, s.log.Generation())])
    else pid in s.gets && var p := s.gets[pid];
    match step
    case Lookup =>
      p.Tagged? && s' == s.(gets := s.gets[pid :=
        if p.q in s.answers && s.answers[p.q].0 == p.g then Served(p.q, p.g, s.answers[p.q].1) else Missed(p.q, p.g)])
    case Fetch =>
      p.Missed? && s.log.hist != [] && s' == s.(gets := s.gets[pid := Fetched(p.q, p.g, Ask(p.q, s.log.Current()))])
    case Insert =>
      p.Fetched? && s' == s.(answers := s.answers[p.q := (p.g, p.a)], gets := s.gets[pid := Served(p.q, p.g, p.a)])
  }

  /** `schemacache::keys`: the read is a scan in batches, with other steps in between. */
  ghost predicate NextKeys(s: State, s': State, pid: nat, step: KeysStep) {
    if step.BeginKeys? then s' == s.(listings := s.listings[pid := KeysTagged(step.p, s.log.Generation())])
    else pid in s.listings && var p := s.listings[pid];
    match step
    case LookupKeys =>
      p.KeysTagged? && s' == s.(listings := s.listings[pid :=
        if p.p in s.lists && s.lists[p.p].0 == p.g then KeysServed(p.p, p.g, s.lists[p.p].1)
          else KeysScan(p.p, p.g, [])])
    case ScanKeys(batch) =>
      && p.KeysScan? && s.log.hist != [] && Continues(s.log.Current(), p.p, p.acc, batch)
      && s' == s.(listings := s.listings[pid :=
        if |batch| == BATCH then KeysScan(p.p, p.g, p.acc + batch) else KeysFetched(p.p, p.g, p.acc + batch)])
    case InsertKeys =>
      p.KeysFetched? && s' == s.(lists := s.lists[p.p := (p.g, p.acc)],
                                 listings := s.listings[pid := KeysServed(p.p, p.g, p.acc)])
  }

  /** `catalog::load`: tag, look up, read definition and generation; after the nested read, store. */
  ghost predicate NextLoad(s: State, s': State, pid: nat, step: LoadStep) {
    if step.BeginLoad? then s' == s.(loads := s.loads[pid := LoadTagged(step.t, s.epoch, s.log.Generation())])
    else pid in s.loads && var p := s.loads[pid];
    match step
    case LookupLoad =>
      p.LoadTagged? && s' == s.(loads := s.loads[pid :=
        if p.t in s.defs && s.defs[p.t].0 == (p.e, p.g) then LoadServed(p.t, p.e, p.g, Some(s.defs[p.t].1))
        else LoadMissed(p.t, p.e, p.g)])
    case FetchLoad =>
      && p.LoadMissed? && s.log.hist != []
      && var table := Ask(Get(CatalogKey(p.t)), s.log.Current());
         var generation := Ask(Get(GenerationKey(p.t)), s.log.Current());
         s' == s.(loads := s.loads[pid :=
           if table.v.None? then LoadServed(p.t, p.e, p.g, None) else LoadRead(p.t, p.e, p.g, table, generation)])
    case InsertLoad =>
      p.LoadReady? && s' == s.(defs := s.defs[p.t := ((p.e, p.g), p.def)],
                               loads := s.loads[pid := LoadServed(p.t, p.e, p.g, Some(p.def))])
  }

  /** `load_declarations` inside `load`: a cached read with its own, later, generation. */
  ghost predicate NextDecl(s: State, s': State, pid: nat, step: DeclStep) {
    pid in s.loads && var p := s.loads[pid];
    var q := Get(DeclaredKey(p.t));
    match step
    case BeginDecl =>
      p.LoadRead? && s' == s.(loads := s.loads[pid :=
        DeclTagged(p.t, p.e, p.g, p.table, p.generation, s.log.Generation())])
    case LookupDecl =>
      p.DeclTagged? && s' == s.(loads := s.loads[pid :=
        if q in s.answers && s.answers[q].0 == p.g2
        then LoadReady(p.t, p.e, p.g, Definition(p.table, p.generation, s.answers[q].1))
        else DeclMissed(p.t, p.e, p.g, p.table, p.generation, p.g2)])
    case FetchDecl =>
      p.DeclMissed? && s.log.hist != [] && s' == s.(loads := s.loads[pid :=
        DeclFetched(p.t, p.e, p.g, p.table, p.generation, p.g2, Ask(q, s.log.Current()))])
    case InsertDecl =>
      p.DeclFetched? && s' == s.(answers := s.answers[q := (p.g2, p.a)],
        loads := s.loads[pid := LoadReady(p.t, p.e, p.g, Definition(p.table, p.generation, p.a))])
  }

  ghost predicate Next(s: State, s': State, step: Step) {
    match step
    case Shared(a) => NextShared(s, s', a)
    case Read(pid, a) => NextRead(s, s', pid, a)
    case Keys(pid, a) => NextKeys(s, s', pid, a)
    case Load(pid, a) => NextLoad(s, s', pid, a)
    case Decl(pid, a) => NextDecl(s, s', pid, a)
  }

  ghost predicate Init(s: State) {
    && |s.log.hist| == 1 && s.log.bumped == []
    && s.answers == map[] && s.lists == map[] && s.defs == map[]
    && s.gets == map[] && s.listings == map[] && s.loads == map[]
  }

  /** Every finite interleaving of steps. */
  ghost predicate Run(states: seq<State>, steps: seq<Step>) {
    && |states| == |steps| + 1 && Init(states[0])
    && forall i | 0 <= i < |steps| :: Next(states[i], states[i + 1], steps[i])
  }

  // -------------------------------------------------------------------- freshness

  /** The answer is the one some version gives that holds every commit bumped among the first `g`. */
  ghost predicate Fresh(l: Log, q: Query, g: nat, a: Answer) {
    exists v: nat :: l.Covers(g, v) && a == Ask(q, l.hist[v])
  }

  /** Whether `k` is listed is right as of some version that holds those commits. */
  ghost predicate FreshKey(l: Log, p: DbKey, g: nat, acc: seq<bytes>, k: bytes) {
    exists v: nat :: l.Covers(g, v) && (k in acc <==> (p.0, k) in l.hist[v] && p.1 <= k)
  }

  /** A listing is in order, and right key by key. (Its batches may be from different versions.) */
  ghost predicate FreshKeys(l: Log, p: DbKey, g: nat, acc: seq<bytes>) {
    && (forall i, j | 0 <= i < j < |acc| :: Less(acc[i], acc[j]))
    && forall k :: FreshKey(l, p, g, acc, k)
  }

  /** Both reads behind a definition hold those commits. */
  ghost predicate FreshDefinition(l: Log, t: DbKey, g: nat, d: Definition) {
    FreshPair(l, t, g, d.table, d.generation) && Fresh(l, Get(DeclaredKey(t)), g, d.declared)
  }

  ghost predicate FreshPair(l: Log, t: DbKey, g: nat, table: Answer, generation: Answer) {
    exists v: nat :: l.Covers(g, v)
      && table == Ask(Get(CatalogKey(t)), l.hist[v]) && generation == Ask(Get(GenerationKey(t)), l.hist[v])
  }

  /** A scan in progress is right on the keys up to its last one. */
  ghost predicate FreshSoFar(l: Log, p: DbKey, g: nat, acc: seq<bytes>) {
    && g <= |l.bumped|
    && (forall i, j | 0 <= i < j < |acc| :: Less(acc[i], acc[j]))
    && (forall k | k in acc :: FreshKey(l, p, g, acc, k))
    && forall k | acc != [] && AtMost(k, acc[|acc| - 1]) :: FreshKey(l, p, g, acc, k)
  }

  ghost predicate GetOk(l: Log, p: GetProc) {
    match p
    case Tagged(_, g) => g <= |l.bumped|
    case Missed(_, g) => g <= |l.bumped|
    case Fetched(q, g, a) => Fresh(l, q, g, a)
    case Served(q, g, a) => Fresh(l, q, g, a)
  }

  ghost predicate KeysOk(l: Log, p: KeysProc) {
    match p
    case KeysTagged(_, g) => g <= |l.bumped|
    case KeysScan(p, g, acc) => FreshSoFar(l, p, g, acc)
    case KeysFetched(p, g, acc) => FreshKeys(l, p, g, acc)
    case KeysServed(p, g, acc) => FreshKeys(l, p, g, acc)
  }

  ghost predicate LoadOk(l: Log, p: LoadProc) {
    match p
    case LoadTagged(_, _, g) => g <= |l.bumped|
    case LoadMissed(_, _, g) => g <= |l.bumped|
    case LoadRead(t, _, g, x, y) => g <= |l.bumped| && FreshPair(l, t, g, x, y)
    case DeclTagged(t, _, g, x, y, g2) => FreshPair(l, t, g, x, y) && g <= g2 <= |l.bumped|
    case DeclMissed(t, _, g, x, y, g2) => FreshPair(l, t, g, x, y) && g <= g2 <= |l.bumped|
    case DeclFetched(t, _, g, x, y, g2, a) => FreshPair(l, t, g, x, y) && g <= g2
                                              && Fresh(l, Get(DeclaredKey(t)), g2, a)
    case LoadReady(t, _, g, d) => FreshDefinition(l, t, g, d)
    case LoadServed(t, _, g, d) =>
      if d.Some? then FreshDefinition(l, t, g, d.value)
      else Fresh(l, Get(CatalogKey(t)), g, Value(None))
  }

  ghost predicate CachesOk(s: State) {
    && (forall q | q in s.answers :: Fresh(s.log, q, s.answers[q].0, s.answers[q].1))
    && (forall p | p in s.lists :: FreshKeys(s.log, p, s.lists[p].0, s.lists[p].1))
    && (forall t | t in s.defs :: FreshDefinition(s.log, t, s.defs[t].0.1, s.defs[t].1))
  }

  ghost predicate Inv(s: State) {
    && s.log.Valid() && CachesOk(s)
    && (forall pid | pid in s.gets :: GetOk(s.log, s.gets[pid]))
    && (forall pid | pid in s.listings :: KeysOk(s.log, s.listings[pid]))
    && (forall pid | pid in s.loads :: LoadOk(s.log, s.loads[pid]))
  }

  // ----------------------------------------------- nothing established is ever lost

  lemma {:induction false} CoversStays(l: Log, l': Log, g: nat, v: nat)
    requires l'.Extends(l) && l.Covers(g, v)
    ensures l'.Covers(g, v) && l'.hist[v] == l.hist[v]
  {
  }

  /** A read of the newest version covers every bump so far. */
  lemma {:induction false} NewestCovers(l: Log, g: nat)
    requires l.Valid() && g <= |l.bumped|
    ensures l.Covers(g, |l.hist| - 1)
  {
  }

  lemma {:induction false} FreshStays(l: Log, l': Log, q: Query, g: nat, a: Answer)
    requires l'.Extends(l) && Fresh(l, q, g, a)
    ensures Fresh(l', q, g, a)
  {
    var v: nat :| l.Covers(g, v) && a == Ask(q, l.hist[v]);
    CoversStays(l, l', g, v);
  }

  lemma {:induction false} FreshKeyStays(l: Log, l': Log, p: DbKey, g: nat, acc: seq<bytes>, k: bytes)
    requires l'.Extends(l) && FreshKey(l, p, g, acc, k)
    ensures FreshKey(l', p, g, acc, k)
  {
    var v: nat :| l.Covers(g, v) && (k in acc <==> (p.0, k) in l.hist[v] && p.1 <= k);
    CoversStays(l, l', g, v);
  }

  lemma {:induction false} FreshKeysStays(l: Log, l': Log, p: DbKey, g: nat, acc: seq<bytes>)
    requires l'.Extends(l) && FreshKeys(l, p, g, acc)
    ensures FreshKeys(l', p, g, acc)
  {
    forall k ensures FreshKey(l', p, g, acc, k) {
      FreshKeyStays(l, l', p, g, acc, k);
    }
  }

  lemma {:induction false} FreshPairStays(l: Log, l': Log, t: DbKey, g: nat, x: Answer, y: Answer)
    requires l'.Extends(l) && FreshPair(l, t, g, x, y)
    ensures FreshPair(l', t, g, x, y)
  {
    var v: nat :| l.Covers(g, v) && x == Ask(Get(CatalogKey(t)), l.hist[v])
                  && y == Ask(Get(GenerationKey(t)), l.hist[v]);
    CoversStays(l, l', g, v);
  }

  lemma {:induction false} FreshDefinitionStays(l: Log, l': Log, t: DbKey, g: nat, d: Definition)
    requires l'.Extends(l) && FreshDefinition(l, t, g, d)
    ensures FreshDefinition(l', t, g, d)
  {
    FreshPairStays(l, l', t, g, d.table, d.generation);
    FreshStays(l, l', Get(DeclaredKey(t)), g, d.declared);
  }

  lemma {:induction false} GetStays(l: Log, l': Log, p: GetProc)
    requires l'.Extends(l) && GetOk(l, p)
    ensures GetOk(l', p)
  {
    if p.Fetched? || p.Served? {
      FreshStays(l, l', p.q, p.g, p.a);
    }
  }

  lemma {:induction false} KeysStays(l: Log, l': Log, p: KeysProc)
    requires l'.Extends(l) && KeysOk(l, p)
    ensures KeysOk(l', p)
  {
    if p.KeysScan? {
      forall k | FreshKey(l, p.p, p.g, p.acc, k) ensures FreshKey(l', p.p, p.g, p.acc, k) {
        FreshKeyStays(l, l', p.p, p.g, p.acc, k);
      }
    } else if !p.KeysTagged? {
      FreshKeysStays(l, l', p.p, p.g, p.acc);
    }
  }

  lemma {:induction false} LoadStays(l: Log, l': Log, p: LoadProc)
    requires l'.Extends(l) && LoadOk(l, p)
    ensures LoadOk(l', p)
  {
    if p.LoadRead? || p.DeclTagged? || p.DeclMissed? || p.DeclFetched? {
      FreshPairStays(l, l', p.t, p.g, p.table, p.generation);
      if p.DeclFetched? {
        FreshStays(l, l', Get(DeclaredKey(p.t)), p.g2, p.a);
      }
    } else if p.LoadReady? {
      FreshDefinitionStays(l, l', p.t, p.g, p.def);
    } else if p.LoadServed? {
      if p.result.Some? {
        FreshDefinitionStays(l, l', p.t, p.g, p.result.value);
      } else {
        FreshStays(l, l', Get(CatalogKey(p.t)), p.g, Value(None));
      }
    }
  }

  lemma {:induction false} CachesStay(s: State, s': State)
    requires CachesOk(s) && s'.log.Extends(s.log)
    requires s'.answers == s.answers && s'.lists == s.lists && s'.defs == s.defs
    ensures CachesOk(s')
  {
    forall q | q in s.answers ensures Fresh(s'.log, q, s.answers[q].0, s.answers[q].1) {
      FreshStays(s.log, s'.log, q, s.answers[q].0, s.answers[q].1);
    }
    forall p | p in s.lists ensures FreshKeys(s'.log, p, s.lists[p].0, s.lists[p].1) {
      FreshKeysStays(s.log, s'.log, p, s.lists[p].0, s.lists[p].1);
    }
    forall t | t in s.defs ensures FreshDefinition(s'.log, t, s.defs[t].0.1, s.defs[t].1) {
      FreshDefinitionStays(s.log, s'.log, t, s.defs[t].0.1, s.defs[t].1);
    }
  }

  /** Commits and bumps only extend the log, so everything cached or in flight stays as fresh as it was. */
  lemma {:induction false} LogGrows(s: State, s': State)
    requires Inv(s) && s'.log.Extends(s.log) && s'.log.Valid() && s' == s.(log := s'.log)
    ensures Inv(s')
  {
    CachesStay(s, s');
    forall pid | pid in s.gets ensures GetOk(s'.log, s.gets[pid]) {
      GetStays(s.log, s'.log, s.gets[pid]);
    }
    forall pid | pid in s.listings ensures KeysOk(s'.log, s.listings[pid]) {
      KeysStays(s.log, s'.log, s.listings[pid]);
    }
    forall pid | pid in s.loads ensures LoadOk(s'.log, s.loads[pid]) {
      LoadStays(s.log, s'.log, s.loads[pid]);
    }
  }

  // -------------------------------------------------------------- the reading steps

  lemma {:induction false} NewRead(l: Log, q: Query, g: nat)
    requires l.Valid() && g <= |l.bumped|
    ensures Fresh(l, q, g, Ask(q, l.Current()))
  {
    NewestCovers(l, g);
  }

  /** A later tag is a stronger promise. */
  lemma {:induction false} FreshWeaken(l: Log, q: Query, g: nat, g2: nat, a: Answer)
    requires g <= g2 && Fresh(l, q, g2, a)
    ensures Fresh(l, q, g, a)
  {
    var v: nat :| l.Covers(g2, v) && a == Ask(q, l.hist[v]);
    assert l.Covers(g, v);
  }

  /** One more batch: keys up to the new end are right as of the newest version, earlier ones as before. */
  lemma {:induction false} BatchKeepsFresh(l: Log, p: DbKey, g: nat, acc: seq<bytes>, batch: seq<bytes>)
    requires l.Valid() && FreshSoFar(l, p, g, acc) && Continues(l.Current(), p, acc, batch)
    ensures |batch| == BATCH ==> FreshSoFar(l, p, g, acc + batch)
    ensures |batch| < BATCH ==> FreshKeys(l, p, g, acc + batch)
  {
    var now := |l.hist| - 1;
    NewestCovers(l, g);
    forall k ensures Wanted(l.Current(), p, acc, k) <==>
                     k in KeysUnder(l.Current(), p) && Scan.After(Scan.LastOf(acc), k) {
      UnderIff(l.Current(), p, k);
    }
    var all := acc + batch;
    forall i, j | 0 <= i < j < |all| ensures Less(all[i], all[j]) {
      AppendAscends(acc, batch, i, j);
    }
    forall k | acc != [] && AtMost(k, acc[|acc| - 1]) ensures FreshKey(l, p, g, all, k) {
      assert FreshKey(l, p, g, acc, k);
      var v: nat :| l.Covers(g, v) && (k in acc <==> (p.0, k) in l.hist[v] && p.1 <= k);
      if k in batch {
        assert Wanted(l.Current(), p, acc, k);
        NotBoth(acc[|acc| - 1], k);
      }
      assert k in all <==> k in acc;
    }
    forall k | acc == [] || Less(acc[|acc| - 1], k)
      ensures k !in batch && Wanted(l.Current(), p, acc, k) ==> |batch| == BATCH && Less(batch[BATCH - 1], k)
      ensures k !in acc
      ensures k in batch || !Wanted(l.Current(), p, acc, k) ==> FreshKey(l, p, g, all, k)
    {
      if k in acc {
        var i :| 0 <= i < |acc| && acc[i] == k;
        if i < |acc| - 1 { assert Less(acc[i], acc[|acc| - 1]); }
        NotBoth(k, acc[|acc| - 1]);
        assert false;
      }
      if k in batch || !Wanted(l.Current(), p, acc, k) {
        assert l.Covers(g, now) && (k in all <==> (p.0, k) in l.hist[now] && p.1 <= k);
      }
    }
    forall k ensures |batch| < BATCH || AtMost(k, all[|all| - 1]) || k in all ==> FreshKey(l, p, g, all, k) {
      if acc != [] {
        LessTotal(acc[|acc| - 1], k);
      }
      if |batch| == BATCH && Less(batch[BATCH - 1], k) {
        NotBoth(batch[BATCH - 1], k);
      }
    }
  }

  lemma {:induction false} NotBoth(a: bytes, b: bytes)
    ensures !(Less(a, b) && Less(b, a)) && !(Less(a, b) && AtMost(b, a)) && !(AtMost(a, b) && Less(b, a))
  {
    LessIrreflexive(a);
    if Less(a, b) { LessAsymmetric(a, b); }
  }

  lemma {:induction false} AppendAscends(acc: seq<bytes>, batch: seq<bytes>, i: nat, j: nat)
    requires forall i, j | 0 <= i < j < |acc| :: Less(acc[i], acc[j])
    requires forall i, j | 0 <= i < j < |batch| :: Less(batch[i], batch[j])
    requires forall k | k in batch :: acc != [] ==> Less(acc[|acc| - 1], k)
    requires i < j < |acc + batch|
    ensures Less((acc + batch)[i], (acc + batch)[j])
  {
    if i < |acc| <= j {
      var k := batch[j - |acc|];
      assert k in batch;
      if i < |acc| - 1 {
        LessTransitive(acc[i], acc[|acc| - 1], k);
      }
    }
  }

  // ------------------------------------------------------------------ every run

  lemma {:induction false} SharedStepKeepsInv(s: State, s': State, step: SharedStep)
    requires Inv(s) && NextShared(s, s', step)
    ensures Inv(s') && s'.log.Extends(s.log)
  {
    match step
    case Commit(_) => LogGrows(s, s');
    case Bump(_) => LogGrows(s, s');
    case BumpEpoch =>
    case Evict(answers, lists) =>
      forall q | q in answers ensures q in s.answers && s.answers[q] == answers[q] {
        assert (q, answers[q]) in answers.Items;
      }
      forall p | p in lists ensures p in s.lists && s.lists[p] == lists[p] {
        assert (p, lists[p]) in lists.Items;
      }
  }

  lemma {:induction false} GetUpdated(s: State, pid: nat, p: GetProc)
    requires Inv(s) && GetOk(s.log, p)
    ensures Inv(s.(gets := s.gets[pid := p]))
  {
    assert CachesOk(s.(gets := s.gets[pid := p]));
  }

  lemma {:induction false} AnswerUpdated(s: State, q: Query, g: nat, a: Answer)
    requires Inv(s) && Fresh(s.log, q, g, a)
    ensures Inv(s.(answers := s.answers[q := (g, a)]))
  {
    assert CachesOk(s.(answers := s.answers[q := (g, a)]));
  }

  lemma {:induction false} ReadStepOk(s: State, s': State, pid: nat, step: ReadStep)
    requires Inv(s) && NextRead(s, s', pid, step)
    ensures pid in s'.gets && GetOk(s.log, s'.gets[pid])
  {
    if step.Fetch? {
      NewRead(s.log, s.gets[pid].q, s.gets[pid].g);
    }
  }

  lemma {:induction false} ReadStepKeepsInv(s: State, s': State, pid: nat, step: ReadStep)
    requires Inv(s) && NextRead(s, s', pid, step)
    ensures Inv(s') && s'.log == s.log
  {
    ReadStepOk(s, s', pid, step);
    if step.Insert? {
      var p := s.gets[pid];
      AnswerUpdated(s, p.q, p.g, p.a);
      GetUpdated(s.(answers := s'.answers), pid, s'.gets[pid]);
    } else {
      GetUpdated(s, pid, s'.gets[pid]);
    }
  }

  lemma {:induction false} KeysStepKeepsInv(s: State, s': State, pid: nat, step: KeysStep)
    requires Inv(s) && NextKeys(s, s', pid, step)
    ensures Inv(s') && s'.log == s.log
  {
    if step.ScanKeys? {
      var p := s.listings[pid];
      BatchKeepsFresh(s.log, p.p, p.g, p.acc, step.batch);
    }
    assert KeysOk(s.log, s'.listings[pid]);
    assert CachesOk(s');
  }

  lemma {:induction false} ProcUpdated(s: State, pid: nat, p: LoadProc)
    requires Inv(s) && LoadOk(s.log, p)
    ensures Inv(s.(loads := s.loads[pid := p]))
  {
    assert CachesOk(s.(loads := s.loads[pid := p]));
  }

  lemma {:induction false} DefUpdated(s: State, t: DbKey, e: nat, g: nat, def: Definition)
    requires Inv(s) && FreshDefinition(s.log, t, g, def)
    ensures Inv(s.(defs := s.defs[t := ((e, g), def)]))
  {
    assert CachesOk(s.(defs := s.defs[t := ((e, g), def)]));
  }

  lemma {:induction false} LoadStepOk(s: State, s': State, pid: nat, step: LoadStep)
    requires Inv(s) && NextLoad(s, s', pid, step)
    ensures pid in s'.loads && LoadOk(s.log, s'.loads[pid])
  {
    if step.FetchLoad? {
      NewestCovers(s.log, s.loads[pid].g);
      NewRead(s.log, Get(CatalogKey(s.loads[pid].t)), s.loads[pid].g);
    }
  }

  lemma {:induction false} LoadStepKeepsInv(s: State, s': State, pid: nat, step: LoadStep)
    requires Inv(s) && NextLoad(s, s', pid, step)
    ensures Inv(s') && s'.log == s.log
  {
    LoadStepOk(s, s', pid, step);
    if step.InsertLoad? {
      var p := s.loads[pid];
      DefUpdated(s, p.t, p.e, p.g, p.def);
      ProcUpdated(s.(defs := s'.defs), pid, s'.loads[pid]);
    } else {
      ProcUpdated(s, pid, s'.loads[pid]);
    }
  }

  lemma {:induction false} DeclStepOk(s: State, s': State, pid: nat, step: DeclStep)
    requires Inv(s) && NextDecl(s, s', pid, step)
    ensures pid in s'.loads && LoadOk(s.log, s'.loads[pid])
  {
    var p := s.loads[pid];
    var q := Get(DeclaredKey(p.t));
    if step.LookupDecl? && q in s.answers && s.answers[q].0 == p.g2 {
      FreshWeaken(s.log, q, p.g, p.g2, s.answers[q].1);
    } else if step.FetchDecl? {
      NewRead(s.log, q, p.g2);
    } else if step.InsertDecl? {
      FreshWeaken(s.log, q, p.g, p.g2, p.a);
    }
  }

  lemma {:induction false} DeclStepKeepsInv(s: State, s': State, pid: nat, step: DeclStep)
    requires Inv(s) && NextDecl(s, s', pid, step)
    ensures Inv(s') && s'.log == s.log
  {
    DeclStepOk(s, s', pid, step);
    if step.InsertDecl? {
      var p := s.loads[pid];
      AnswerUpdated(s, Get(DeclaredKey(p.t)), p.g2, p.a);
      ProcUpdated(s.(answers := s'.answers), pid, s'.loads[pid]);
    } else {
      ProcUpdated(s, pid, s'.loads[pid]);
    }
  }

  lemma {:induction false} StepKeepsInv(s: State, s': State, step: Step)
    requires Inv(s) && Next(s, s', step)
    ensures Inv(s') && s'.log.Extends(s.log)
  {
    match step
    case Shared(a) => SharedStepKeepsInv(s, s', a);
    case Read(pid, a) => ReadStepKeepsInv(s, s', pid, a);
    case Keys(pid, a) => KeysStepKeepsInv(s, s', pid, a);
    case Load(pid, a) => LoadStepKeepsInv(s, s', pid, a);
    case Decl(pid, a) => DeclStepKeepsInv(s, s', pid, a);
  }

  lemma {:induction false} RunKeepsInv(states: seq<State>, steps: seq<Step>, n: nat)
    requires Run(states, steps) && n < |states|
    ensures Inv(states[n]) && (n > 0 ==> states[n].log.Extends(states[n - 1].log))
  {
    if n > 0 {
      RunKeepsInv(states, steps, n - 1);
      StepKeepsInv(states[n - 1], states[n], steps[n - 1]);
    }
  }

  lemma {:induction false} ExtendsTransitive(a: Log, b: Log, c: Log)
    requires b.Extends(a) && c.Extends(b)
    ensures c.Extends(a)
  {
  }

  lemma {:induction false} LogOnlyGrows(states: seq<State>, steps: seq<Step>, m: nat, n: nat)
    requires Run(states, steps) && m <= n < |states|
    ensures states[n].log.Extends(states[m].log)
  {
    if m < n {
      LogOnlyGrows(states, steps, m, n - 1);
      RunKeepsInv(states, steps, n);
      ExtendsTransitive(states[m].log, states[n - 1].log, states[n].log);
    }
  }

  /**
   * Freshness over every interleaving. Take any run in which a call has finished by state `n`, having begun
   * (loaded its generation) at state `m`. Then what it returned, from the cache or from storage, is what some
   * committed version gives, and that version holds every commit whose bump came before the call began,
   * whatever stale results were stored late in between. The same for key listings, key by key, and for
   * both reads behind a table definition.
   */
  lemma {:induction false} ServedIsFresh(states: seq<State>, steps: seq<Step>, m: nat, n: nat, pid: nat)
    requires Run(states, steps) && m <= n < |states|
    ensures
      var s, began := states[n], states[m].log.Generation();
      && began <= |s.log.bumped| && s.log.bumped[..began] == states[m].log.bumped
      && (pid in s.gets && s.gets[pid].Served? && s.gets[pid].g == began ==>
            Fresh(s.log, s.gets[pid].q, began, s.gets[pid].a))
      && (pid in s.listings && s.listings[pid].KeysServed? && s.listings[pid].g == began ==>
            FreshKeys(s.log, s.listings[pid].p, began, s.listings[pid].acc))
      && (pid in s.loads && s.loads[pid].LoadServed? && s.loads[pid].g == began ==>
            match s.loads[pid].result
            case Some(def) => FreshDefinition(s.log, s.loads[pid].t, began, def)
            case None => Fresh(s.log, Get(CatalogKey(s.loads[pid].t)), began, Value(None)))
  {
    RunKeepsInv(states, steps, n);
    LogOnlyGrows(states, steps, m, n);
  }

  // ------------------------------------------------- when a hit is the committed state

  ghost predicate Reachable(s: State) {
    exists states, steps :: Run(states, steps) && states[|steps|] == s
  }

  lemma {:induction false} ReachableInv(s: State)
    requires Reachable(s)
    ensures Inv(s)
  {
    var states, steps :| Run(states, steps) && states[|steps|] == s;
    RunKeepsInv(states, steps, |steps|);
  }

  lemma {:induction false} ReachNext(s: State, s': State, step: Step)
    requires Reachable(s) && Next(s, s', step)
    ensures Reachable(s')
  {
    var states, steps :| Run(states, steps) && states[|steps|] == s;
    var states', steps' := states + [s'], steps + [step];
    forall i | 0 <= i < |steps'| ensures Next(states'[i], states'[i + 1], steps'[i]) {
      if i == |steps| {
        assert states'[i] == s && states'[i + 1] == s';
      }
    }
    assert Run(states', steps') && states'[|steps'|] == s';
  }

  lemma {:induction false} ReachCommits(s: State, more: seq<Contents>)
    requires Reachable(s)
    ensures Reachable(s.(log := s.log.(hist := s.log.hist + more)))
    decreases |more|
  {
    if more == [] {
      assert s.log.hist + more == s.log.hist;
    } else {
      var s' := s.(log := s.log.(hist := s.log.hist + [more[0]]));
      ReachNext(s, s', Shared(Commit(more[0])));
      ReachCommits(s', more[1..]);
      assert s'.log.hist + more[1..] == s.log.hist + more;
    }
  }

  lemma {:induction false} ReachBumps(s: State, more: seq<nat>)
    requires Reachable(s) && forall i | 0 <= i < |more| :: more[i] < |s.log.hist|
    ensures Reachable(s.(log := s.log.(bumped := s.log.bumped + more)))
    decreases |more|
  {
    if more == [] {
      assert s.log.bumped + more == s.log.bumped;
    } else {
      var s' := s.(log := s.log.(bumped := s.log.bumped + [more[0]]));
      ReachNext(s, s', Shared(Bump(more[0])));
      ReachBumps(s', more[1..]);
      assert s'.log.bumped + more[1..] == s.log.bumped + more;
    }
  }

  /** The log when only the commits up to `v` were there, all bumps done. */
  ghost function Upto(l: Log, v: nat): Log
    requires v < |l.hist|
  {
    Log(l.hist[..v + 1], l.bumped)
  }

  ghost function Idle(l: Log): State {
    State(l, 0, map[], map[], map[], map[], map[], map[])
  }

  /** Every log can come about with the commits after `v` last, if `v` covers all bumps. */
  lemma {:induction false} ReachUpto(l: Log, v: nat)
    requires l.Covers(l.Generation(), v)
    ensures Reachable(Idle(Upto(l, v)))
  {
    var s := Idle(Log([l.hist[0]], []));
    var none: seq<Step> := [];
    assert Run([s], none) && [s][|none|] == s;
    ReachCommits(s, l.hist[1..v + 1]);
    assert [l.hist[0]] + l.hist[1..v + 1] == l.hist[..v + 1];
    ReachBumps(Idle(Log(l.hist[..v + 1], [])), l.bumped);
    assert [] + l.bumped == l.bumped;
  }

  lemma {:induction false} ReachRest(s: State, l: Log, v: nat, w: nat)
    requires v <= w < |l.hist| && Reachable(s) && s.log == Upto(l, v)
    ensures Reachable(s.(log := Upto(l, w)))
  {
    ReachCommits(s, l.hist[v + 1..w + 1]);
    assert l.hist[..v + 1] + l.hist[v + 1..w + 1] == l.hist[..w + 1];
  }

  /** A call that finds nothing cached stores what the newest version gives. */
  lemma {:induction false} ReachCached(s: State, pid: nat, q: Query)
    requires Reachable(s) && q !in s.answers && s.log.hist != []
    ensures
      var g, a := s.log.Generation(), Ask(q, s.log.Current());
      Reachable(s.(answers := s.answers[q := (g, a)], gets := s.gets[pid := Served(q, g, a)]))
  {
    var g, a := s.log.Generation(), Ask(q, s.log.Current());
    var s1 := s.(gets := s.gets[pid := Tagged(q, g)]);
    ReachNext(s, s1, Read(pid, Begin(q)));
    var s2 := s1.(gets := s1.gets[pid := Missed(q, g)]);
    ReachNext(s1, s2, Read(pid, Lookup));
    var s3 := s2.(gets := s2.gets[pid := Fetched(q, g, a)]);
    ReachNext(s2, s3, Read(pid, Fetch));
    var s4 := s3.(answers := s3.answers[q := (g, a)], gets := s3.gets[pid := Served(q, g, a)]);
    ReachNext(s3, s4, Read(pid, Insert));
    assert s4 == s.(answers := s.answers[q := (g, a)], gets := s.gets[pid := Served(q, g, a)]);
  }

  /**
   * A run that ends in the log `l` with a call just served, from the cache, what version `v` gave: possible for
   * every version that holds all bumped commits, however many newer ones there are.
   */
  lemma {:induction false} HitOfVersion(l: Log, q: Query, v: nat) returns (s: State)
    requires l.Covers(l.Generation(), v)
    ensures Reachable(s) && s.log == l && q in s.answers && s.answers[q] == (l.Generation(), Ask(q, l.hist[v]))
    ensures 1 in s.gets && s.gets[1] == Served(q, l.Generation(), Ask(q, l.hist[v]))
  {
    ReachUpto(l, v);
    var s0 := Idle(Upto(l, v));
    ReachCached(s0, 0, q);
    var g, a := l.Generation(), Ask(q, l.hist[v]);
    var s1 := s0.(answers := map[q := (g, a)], gets := map[0 := Served(q, g, a)]);
    assert s1 == s0.(answers := s0.answers[q := (g, a)], gets := s0.gets[0 := Served(q, g, a)]);
    ReachRest(s1, l, v, |l.hist| - 1);
    var s2 := s1.(log := l);
    assert Upto(l, |l.hist| - 1) == l;
    var s3 := s2.(gets := s2.gets[1 := Tagged(q, g)]);
    ReachNext(s2, s3, Read(1, Begin(q)));
    s := s3.(gets := s3.gets[1 := Served(q, g, a)]);
    ReachNext(s3, s, Read(1, Lookup));
  }

  /** No commit since the newest bumped one changed the answer. */
  ghost predicate Settled(l: Log, q: Query)
    requires l.hist != []
  {
    forall v: nat | l.Covers(l.Generation(), v) :: Ask(q, l.hist[v]) == Ask(q, l.Current())
  }

  /** Whenever the log is `l`, an entry that would be served is the committed state. */
  ghost predicate HitsCurrent(l: Log, q: Query)
    requires l.hist != []
  {
    forall s | Reachable(s) && s.log == l && q in s.answers && s.answers[q].0 == l.Generation() ::
      s.answers[q].1 == Ask(q, l.Current())
  }

  /** Exactly when a hit is sure to be the committed state: no commit that awaits a bump changed the answer. */
  lemma {:induction false} HitIsCurrentIff(l: Log, q: Query)
    requires l.Valid()
    ensures HitsCurrent(l, q) <==> Settled(l, q)
  {
    if Settled(l, q) {
      forall s | Reachable(s) && s.log == l && q in s.answers && s.answers[q].0 == l.Generation()
        ensures s.answers[q].1 == Ask(q, l.Current())
      {
        ReachableInv(s);
        assert Fresh(l, q, l.Generation(), s.answers[q].1);
      }
    } else {
      var v: nat :| l.Covers(l.Generation(), v) && Ask(q, l.hist[v]) != Ask(q, l.Current());
      var s := HitOfVersion(l, q, v);
      assert !HitsCurrent(l, q);
    }
  }

  /** All hits are sure to be the committed state exactly when only copies of it cover the generation. */
  lemma {:induction false} AllHitsCurrentIff(l: Log)
    requires l.Valid()
    ensures (forall q :: HitsCurrent(l, q)) <==> forall v: nat | l.Covers(l.Generation(), v) :: l.hist[v] == l.Current()
  {
    forall q ensures HitsCurrent(l, q) <==> Settled(l, q) {
      HitIsCurrentIff(l, q);
    }
    if forall q :: HitsCurrent(l, q) {
      forall v: nat | l.Covers(l.Generation(), v) ensures l.hist[v] == l.Current() {
        forall k ensures Ask(Get(k), l.hist[v]) == Ask(Get(k), l.Current()) {
          assert HitsCurrent(l, Get(k)) && Settled(l, Get(k));
        }
        SameAnswers(l.hist[v], l.Current());
      }
    }
  }

  lemma {:induction false} SameAnswers(c: Contents, d: Contents)
    requires forall k :: Ask(Get(k), c) == Ask(Get(k), d)
    ensures c == d
  {
    forall k ensures k in c <==> k in d {
      assert Ask(Get(k), c) == Ask(Get(k), d);
    }
    forall k | k in c ensures c[k] == d[k] {
      assert Ask(Get(k), c) == Ask(Get(k), d);
    }
  }

  /** The newest commit has been bumped, or there is none yet. */
  ghost predicate NewestBumped(l: Log) {
    |l.hist| == 1 || |l.hist| - 1 in l.bumped
  }

  /** Then only the newest version covers the generation, so every hit is the committed state. */
  lemma {:induction false} NewestBumpedSettles(l: Log, v: nat)
    requires l.Valid() && NewestBumped(l) && l.Covers(l.Generation(), v)
    ensures v == |l.hist| - 1
  {
  }

  // ------------------------------------------------------------------------ listings

  lemma {:induction false} NextBatch(c: Contents, p: DbKey, acc: seq<bytes>) returns (batch: seq<bytes>)
    ensures Continues(c, p, acc, batch)
  {
    batch := Scan.BatchExists(BATCH, KeysUnder(c, p), Scan.LastOf(acc));
  }

  /** A scan that goes on over one version ends, having listed all its keys. */
  lemma {:induction false} ReachScanned(s: State, pid: nat, p: DbKey, g: nat, acc: seq<bytes>) returns (all: seq<bytes>)
    requires Reachable(s) && pid in s.listings && s.listings[pid] == KeysScan(p, g, acc) && s.log.hist != []
    ensures Reachable(s.(listings := s.listings[pid := KeysFetched(p, g, all)]))
    ensures forall k :: k in all <==>
                        k in acc || (k in KeysUnder(s.log.Current(), p) && Scan.After(Scan.LastOf(acc), k))
    decreases |Scan.Ahead(KeysUnder(s.log.Current(), p), Scan.LastOf(acc))|
  {
    var keys := KeysUnder(s.log.Current(), p);
    var batch := NextBatch(s.log.Current(), p, acc);
    var more := acc + batch;
    if |batch| < BATCH {
      var s' := s.(listings := s.listings[pid := KeysFetched(p, g, more)]);
      ReachNext(s, s', Keys(pid, ScanKeys(batch)));
      all := more;
    } else {
      var s' := s.(listings := s.listings[pid := KeysScan(p, g, more)]);
      ReachNext(s, s', Keys(pid, ScanKeys(batch)));
      Scan.CursorPasses(BATCH, keys, Scan.LastOf(acc), batch);
      assert Scan.LastOf(more) == Some(batch[|batch| - 1]);
      all := ReachScanned(s', pid, p, g, more);
      assert s'.(listings := s'.listings[pid := KeysFetched(p, g, all)]) ==
             s.(listings := s.listings[pid := KeysFetched(p, g, all)]);
      ScannedAll(keys, acc, batch, all);
    }
  }

  lemma {:induction false} ScannedAll(keys: set<bytes>, acc: seq<bytes>, batch: seq<bytes>, all: seq<bytes>)
    requires Scan.IsBatch(BATCH, keys, Scan.LastOf(acc), batch) && |batch| == BATCH
    requires forall k :: k in all <==> k in acc + batch || (k in keys && Scan.After(Some(batch[BATCH - 1]), k))
    ensures forall k :: k in all <==> k in acc || (k in keys && Scan.After(Scan.LastOf(acc), k))
  {
    var end := batch[BATCH - 1];
    assert end in batch;
    forall k | k in keys && Scan.After(Some(end), k) ensures Scan.After(Scan.LastOf(acc), k) {
      if acc != [] { LessTransitive(acc[|acc| - 1], end, k); }
    }
  }

  /** A run that ends in the log `l` with the keys of version `v` cached. */
  lemma {:induction false} ListOfVersion(l: Log, p: DbKey, v: nat) returns (s: State)
    requires l.Covers(l.Generation(), v)
    ensures Reachable(s) && s.log == l && p in s.lists && s.lists[p].0 == l.Generation()
    ensures forall k :: k in s.lists[p].1 <==> k in KeysUnder(l.hist[v], p)
  {
    ReachUpto(l, v);
    var s0, g := Idle(Upto(l, v)), l.Generation();
    var s1 := s0.(listings := s0.listings[0 := KeysTagged(p, g)]);
    ReachNext(s0, s1, Keys(0, BeginKeys(p)));
    var s2 := s1.(listings := s1.listings[0 := KeysScan(p, g, [])]);
    ReachNext(s1, s2, Keys(0, LookupKeys));
    var all := ReachScanned(s2, 0, p, g, []);
    var s3 := s2.(listings := s2.listings[0 := KeysFetched(p, g, all)]);
    var s4 := s3.(lists := s3.lists[p := (g, all)], listings := s3.listings[0 := KeysServed(p, g, all)]);
    ReachNext(s3, s4, Keys(0, InsertKeys));
    ReachRest(s4, l, v, |l.hist| - 1);
    assert Upto(l, |l.hist| - 1) == l;
    s := s4.(log := l);
  }

  ghost predicate ListSettled(l: Log, p: DbKey)
    requires l.hist != []
  {
    forall v: nat | l.Covers(l.Generation(), v) :: KeysUnder(l.hist[v], p) == KeysUnder(l.Current(), p)
  }

  ghost predicate ListsCurrent(l: Log, p: DbKey)
    requires l.hist != []
  {
    forall s, k | Reachable(s) && s.log == l && p in s.lists && s.lists[p].0 == l.Generation() ::
      k in s.lists[p].1 <==> k in KeysUnder(l.Current(), p)
  }

  /** Exactly when a cached listing is sure to be the committed one. */
  lemma {:induction false} ListIsCurrentIff(l: Log, p: DbKey)
    requires l.Valid()
    ensures ListsCurrent(l, p) <==> ListSettled(l, p)
  {
    if ListSettled(l, p) {
      forall s, k | Reachable(s) && s.log == l && p in s.lists && s.lists[p].0 == l.Generation()
        ensures k in s.lists[p].1 <==> k in KeysUnder(l.Current(), p)
      {
        ReachableInv(s);
        assert FreshKey(l, p, l.Generation(), s.lists[p].1, k);
        var v: nat :| l.Covers(l.Generation(), v) && (k in s.lists[p].1 <==> (p.0, k) in l.hist[v] && p.1 <= k);
        UnderIff(l.hist[v], p, k);
        assert KeysUnder(l.hist[v], p) == KeysUnder(l.Current(), p);
      }
    } else {
      var v: nat :| l.Covers(l.Generation(), v) && KeysUnder(l.hist[v], p) != KeysUnder(l.Current(), p);
      var s := ListOfVersion(l, p, v);
      var k :| (k in KeysUnder(l.hist[v], p)) != (k in KeysUnder(l.Current(), p));
      assert !ListsCurrent(l, p);
    }
  }

  // --------------------------------------------------------------------- definitions

  /** What a definition read at `c`, its declared types at `d`, is. */
  ghost function DefinitionAt(t: DbKey, c: Contents, d: Contents): Definition {
    Definition(Ask(Get(CatalogKey(t)), c), Ask(Get(GenerationKey(t)), c), Ask(Get(DeclaredKey(t)), d))
  }

  ghost predicate HasTable(t: DbKey, c: Contents) {
    CatalogKey(t) in c
  }

  /** The table's definition as last fetched, with the declared types still to be looked up. */
  lemma {:induction false} ReachRead(s: State, t: DbKey)
    requires Reachable(s) && t !in s.defs && s.log.hist != [] && HasTable(t, s.log.Current())
    ensures
      var c := s.log.Current();
      Reachable(s.(loads := s.loads[0 :=
                LoadRead(t, s.epoch, s.log.Generation(), Ask(Get(CatalogKey(t)), c), Ask(Get(GenerationKey(t)), c))]))
  {
    var c, e, g := s.log.Current(), s.epoch, s.log.Generation();
    var s1 := s.(loads := s.loads[0 := LoadTagged(t, e, g)]);
    ReachNext(s, s1, Load(0, BeginLoad(t)));
    var s2 := s1.(loads := s1.loads[0 := LoadMissed(t, e, g)]);
    ReachNext(s1, s2, Load(0, LookupLoad));
    var s3 := s2.(loads := s2.loads[0 := LoadRead(t, e, g, Ask(Get(CatalogKey(t)), c), Ask(Get(GenerationKey(t)), c))]);
    ReachNext(s2, s3, Load(0, FetchLoad));
    assert s3 == s.(loads := s.loads[0 := s3.loads[0]]);
  }

  /** From there, the declared types are those cached, or those of the newest version. */
  lemma {:induction false} ReachLoaded(s: State, t: DbKey, g: nat, x: Answer, y: Answer, z: Answer) returns (s': State)
    requires Reachable(s) && 0 in s.loads && s.loads[0] == LoadRead(t, s.epoch, g, x, y)
             && g == s.log.Generation() && s.log.hist != []
    requires
      var q := Get(DeclaredKey(t));
      if q in s.answers then s.answers[q] == (g, z) else z == Ask(q, s.log.Current())
    ensures Reachable(s') && s'.log == s.log && s'.epoch == s.epoch
    ensures t in s'.defs && s'.defs[t] == ((s.epoch, g), Definition(x, y, z))
  {
    var q, e := Get(DeclaredKey(t)), s.epoch;
    var s1 := s.(loads := s.loads[0 := DeclTagged(t, e, g, x, y, g)]);
    ReachNext(s, s1, Decl(0, BeginDecl));
    var ready := LoadReady(t, e, g, Definition(x, y, z));
    var s4;
    if q in s.answers {
      s4 := s1.(loads := s1.loads[0 := ready]);
      ReachNext(s1, s4, Decl(0, LookupDecl));
    } else {
      var s2 := s1.(loads := s1.loads[0 := DeclMissed(t, e, g, x, y, g)]);
      ReachNext(s1, s2, Decl(0, LookupDecl));
      var s3 := s2.(loads := s2.loads[0 := DeclFetched(t, e, g, x, y, g, z)]);
      ReachNext(s2, s3, Decl(0, FetchDecl));
      s4 := s3.(answers := s3.answers[q := (g, z)], loads := s3.loads[0 := ready]);
      ReachNext(s3, s4, Decl(0, InsertDecl));
    }
    s' := s4.(defs := s4.defs[t := ((e, g), ready.def)], loads := s4.loads[0 := LoadServed(t, e, g, Some(ready.def))]);
    ReachNext(s4, s', Load(0, InsertLoad));
  }

  /** A run that ends in the log `l` with the definition read at version `v`, its declared types at `w`, cached. */
  lemma {:induction false} DefinitionOfVersions(l: Log, t: DbKey, v: nat, w: nat) returns (s: State)
    requires l.Covers(l.Generation(), v) && l.Covers(l.Generation(), w) && HasTable(t, l.hist[v])
    ensures Reachable(s) && s.log == l
    ensures t in s.defs && s.defs[t] == ((s.epoch, l.Generation()), DefinitionAt(t, l.hist[v], l.hist[w]))
  {
    var g, q := l.Generation(), Get(DeclaredKey(t));
    var x, y, z := Ask(Get(CatalogKey(t)), l.hist[v]), Ask(Get(GenerationKey(t)), l.hist[v]), Ask(q, l.hist[w]);
    var s0, read;
    if w < v {
      ReachUpto(l, w);
      s0 := Idle(Upto(l, w));
      ReachCached(s0, 0, q);
      var s1 := s0.(answers := s0.answers[q := (g, z)], gets := s0.gets[0 := Served(q, g, z)]);
      ReachRest(s1, l, w, v);
      var s2 := s1.(log := Upto(l, v));
      ReachRead(s2, t);
      read := s2.(loads := s2.loads[0 := LoadRead(t, 0, g, x, y)]);
    } else {
      ReachUpto(l, v);
      s0 := Idle(Upto(l, v));
      ReachRead(s0, t);
      var s1 := s0.(loads := s0.loads[0 := LoadRead(t, 0, g, x, y)]);
      ReachRest(s1, l, v, w);
      read := s1.(log := Upto(l, w));
    }
    var u := if w < v then v else w;
    var loaded := ReachLoaded(read, t, g, x, y, z);
    ReachRest(loaded, l, u, |l.hist| - 1);
    assert Upto(l, |l.hist| - 1) == l;
    s := loaded.(log := l);
  }

  ghost predicate DefinitionSettled(l: Log, t: DbKey)
    requires l.hist != []
  {
    forall v: nat, w: nat | l.Covers(l.Generation(), v) && l.Covers(l.Generation(), w) && HasTable(t, l.hist[v]) ::
      DefinitionAt(t, l.hist[v], l.hist[w]) == DefinitionAt(t, l.Current(), l.Current())
  }

  ghost predicate DefinitionsCurrent(l: Log, t: DbKey)
    requires l.hist != []
  {
    forall s | Reachable(s) && s.log == l && t in s.defs && s.defs[t].0 == (s.epoch, l.Generation()) ::
      s.defs[t].1 == DefinitionAt(t, l.Current(), l.Current())
  }

  /** Exactly when a cached definition is sure to be the committed one. */
  lemma {:induction false} DefinitionIsCurrentIff(l: Log, t: DbKey)
    requires l.Valid()
    ensures DefinitionsCurrent(l, t) <==> DefinitionSettled(l, t)
  {
    if DefinitionSettled(l, t) {
      forall s | Reachable(s) && s.log == l && t in s.defs && s.defs[t].0 == (s.epoch, l.Generation())
        ensures s.defs[t].1 == DefinitionAt(t, l.Current(), l.Current())
      {
        ReachableInv(s);
        ReachableTables(s);
        CachedDefinition(l, t, s.defs[t].1);
      }
    } else {
      var v: nat, w: nat :| l.Covers(l.Generation(), v) && l.Covers(l.Generation(), w) && HasTable(t, l.hist[v])
                            && DefinitionAt(t, l.hist[v], l.hist[w]) != DefinitionAt(t, l.Current(), l.Current());
      var s := DefinitionOfVersions(l, t, v, w);
      assert !DefinitionsCurrent(l, t);
    }
  }

  lemma {:induction false} CachedDefinition(l: Log, t: DbKey, d: Definition)
    requires l.Valid() && DefinitionSettled(l, t) && FreshDefinition(l, t, l.Generation(), d) && d.table.Value?
             && d.table.v.Some?
    ensures d == DefinitionAt(t, l.Current(), l.Current())
  {
    var v: nat :| l.Covers(l.Generation(), v) && d.table == Ask(Get(CatalogKey(t)), l.hist[v])
                  && d.generation == Ask(Get(GenerationKey(t)), l.hist[v]);
    var w: nat :| l.Covers(l.Generation(), w) && d.declared == Ask(Get(DeclaredKey(t)), l.hist[w]);
    assert HasTable(t, l.hist[v]) && d == DefinitionAt(t, l.hist[v], l.hist[w]);
  }

  /** What is cached as a definition, or about to be, is of a table that was there. */
  ghost predicate HasRead(p: LoadProc) {
    match p
    case LoadRead(_, _, _, x, _) => x.Value? && x.v.Some?
    case DeclTagged(_, _, _, x, _, _) => x.Value? && x.v.Some?
    case DeclMissed(_, _, _, x, _, _) => x.Value? && x.v.Some?
    case DeclFetched(_, _, _, x, _, _, _) => x.Value? && x.v.Some?
    case LoadReady(_, _, _, d) => d.table.Value? && d.table.v.Some?
    case _ => true
  }

  ghost predicate Tables(s: State) {
    && (forall t | t in s.defs :: s.defs[t].1.table.Value? && s.defs[t].1.table.v.Some?)
    && (forall pid | pid in s.loads :: HasRead(s.loads[pid]))
  }

  lemma {:induction false} RunTables(states: seq<State>, steps: seq<Step>, n: nat)
    requires Run(states, steps) && n < |states|
    ensures Tables(states[n])
  {
    if n > 0 {
      RunTables(states, steps, n - 1);
      assert Next(states[n - 1], states[n], steps[n - 1]);
    }
  }

  lemma {:induction false} ReachableTables(s: State)
    requires Reachable(s)
    ensures Tables(s)
  {
    var states, steps :| Run(states, steps) && states[|steps|] == s;
    RunTables(states, steps, |steps|);
  }
}
