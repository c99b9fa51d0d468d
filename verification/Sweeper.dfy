/** The embedding sweep: it keeps a vector column in step with a text column (crates/elyra-engine/src/embedix.rs). */
module Sweeper {
  import opened Wrappers
  import opened Bytes
  import opened Values
  import opened Scan

  const MAX_ATTEMPTS := 5
  const BATCH := 256

  type Row = seq<Value>

  /**
   * One embedding index. `blank`: text that trims to nothing. `hash`: the content hash under the index's model.
   * `embed`: the provider; its answer may depend on the call's number as well as on the text.
   */
  datatype Index = Index(textCol: nat, vecCol: nat, dimension: nat, blank: bytes -> bool, hash: bytes -> u64,
                         embed: (nat, bytes) -> Reply)

  /** The sidecar record of a row. */
  datatype RowState = RowState(hash: u64, attempts: nat, nextAttempt: nat)

  datatype Report = Report(embedded: nat, failed: nat, conflicted: nat, deferred: nat)

  /** What a client does: insert under a free key, used before or not, edit any columns, delete. */
  datatype Action = Insert(k: bytes, row: Row) | Edit(k: bytes, row: Row) | Delete(k: bytes)

  /** What comes back from one provider call: a vector or an error, the clock then, and whether the write's
      transaction loses a race at commit. */
  datatype Reply = Reply(vector: Option<seq<u32>>, clock: nat, raced: bool)

  /** The source and the target are different columns, as every sweep makes sure. */
  predicate Sound(ix: Index) {
    ix.textCol != ix.vecCol
  }

  /** The text to embed, if there is any. */
  function TextOf(ix: Index, row: Row): Option<bytes> {
    if ix.textCol >= |row| then None
    else match row[ix.textCol]
         case Text(s) => if ix.blank(s) then None else Some(s)
         case Json(s) => if ix.blank(s) then None else Some(s)
         case _ => None
  }

  /** There is a text to embed exactly if the source column holds a text or a JSON text that is not blank. */
  lemma {:induction false} TextMeans(ix: Index, row: Row, s: bytes)
    ensures TextOf(ix, row) == Some(s) <==>
            ix.textCol < |row| && (row[ix.textCol] == Text(s) || row[ix.textCol] == Json(s)) && !ix.blank(s)
  {
  }

  function StateOf(side: map<bytes, RowState>, k: bytes): RowState {
    if k in side then side[k] else RowState(0, 0, 0)
  }

  /** 1s, 2s, 4s, 8s, 16s. */
  function Backoff(attempts: nat): nat {
    match attempts
    case 0 => 1000
    case 1 => 2000
    case 2 => 4000
    case 3 => 8000
    case _ => 16000
  }

  function UpToDate(state: RowState, hash: u64): bool {
    state.hash == hash && state.attempts == 0
  }

  /** Dead-lettered, or inside the backoff window. */
  function Waiting(state: RowState, hash: u64, now: nat): bool {
    state.hash == hash && (state.attempts >= MAX_ATTEMPTS || now < state.nextAttempt)
  }

  // ------------------------------------------------------------------ the clients

  datatype Table = Table(rows: map<bytes, Row>, used: set<bytes>)

  function Act(ix: Index, t: Table, a: Action): Table {
    match a
    case Insert(k, row) => if k in t.rows then t else Table(t.rows[k := row], t.used + {k})
    case Edit(k, row) =>
      if k in t.rows && |row| == |t.rows[k]| then t.(rows := t.rows[k := row]) else t
    case Delete(k) => t.(rows := t.rows - {k})
  }

  function ActAll(ix: Index, t: Table, acts: seq<Action>): Table {
    if acts == [] then t else Act(ix, ActAll(ix, t, acts[..|acts| - 1]), acts[|acts| - 1])
  }

  // --------------------------------------------------------------- the invariant

  /**
   * `done`: what clients did since the table was `base`. `origin`: the text a row's recorded vector was made from.
   * `failures`: failures recorded for a row's text since the row last got that text. `unsure`: keys inserted again,
   * or whose vector a client wrote, since the sweep last wrote their vector.
   */
  datatype History = History(base: Table, done: seq<Action>, origin: map<bytes, bytes>, failures: map<bytes, nat>,
                             unsure: set<bytes>)

  function Failures(h: History, k: bytes): nat {
    if k in h.failures then h.failures[k] else 0
  }

  ghost predicate SameButVector(ix: Index, a: Row, b: Row) {
    |a| == |b| && forall c | 0 <= c < |a| && c != ix.vecCol :: a[c] == b[c]
  }

  ghost predicate Agree(ix: Index, a: map<bytes, Row>, b: map<bytes, Row>) {
    a.Keys == b.Keys && forall k | k in a :: SameButVector(ix, a[k], b[k])
  }

  /** Outside the vector column the table is what the clients alone made it. */
  ghost predicate Kept(ix: Index, t: Table, h: History) {
    var alone := ActAll(ix, h.base, h.done);
    Agree(ix, t.rows, alone.rows) && t.used == alone.used
  }

  ghost predicate Known(t: Table, side: map<bytes, RowState>) {
    t.rows.Keys <= t.used && side.Keys <= t.used
  }

  ghost predicate Answers(ix: Index, text: bytes, v: seq<u32>) {
    exists n :: ix.embed(n, text).vector == Some(v)
  }

  /** The row's vector is one the provider returned for `text`, of the declared dimension. */
  ghost predicate Embeds(ix: Index, row: Row, text: bytes) {
    && ix.vecCol < |row| && row[ix.vecCol].Vector?
    && |row[ix.vecCol].floats| == ix.dimension
    && Answers(ix, text, row[ix.vecCol].floats)
  }

  ghost predicate Recorded(ix: Index, t: Table, side: map<bytes, RowState>, h: History, k: bytes)
    requires k in t.rows && k in side
  {
    side[k].attempts == 0 && k !in h.unsure ==>
      k in h.origin && ix.hash(h.origin[k]) == side[k].hash && Embeds(ix, t.rows[k], h.origin[k])
  }

  /** How the failures recorded for the current text show in the sidecar. */
  ghost predicate Counted(ix: Index, row: Row, state: RowState, n: nat) {
    var text := TextOf(ix, row);
    && n <= MAX_ATTEMPTS
    && (text.None? || state.hash != ix.hash(text.value) ==> n == 0)
    && (state.attempts > 0 ==> n <= state.attempts)
  }

  ghost predicate AllRecorded(ix: Index, t: Table, side: map<bytes, RowState>, h: History) {
    forall k | k in t.rows && k in side :: Recorded(ix, t, side, h, k)
  }

  ghost predicate Capped(side: map<bytes, RowState>) {
    forall k | k in side :: side[k].attempts <= MAX_ATTEMPTS
  }

  ghost predicate AllCounted(ix: Index, t: Table, side: map<bytes, RowState>, h: History) {
    forall k | k in t.rows :: Counted(ix, t.rows[k], StateOf(side, k), Failures(h, k))
  }

  ghost predicate Consistent(ix: Index, t: Table, side: map<bytes, RowState>, h: History) {
    && Kept(ix, t, h)
    && Known(t, side) && h.unsure <= t.used
    && AllRecorded(ix, t, side, h)
    && Capped(side)
    && AllCounted(ix, t, side, h)
  }

  /**
   * What a sidecar that calls a row up to date means: the vector was made from a text with the hash of the row's
   * current text, unless a client has since inserted the key again or written the vector; with no sidecar there, the
   * hash is 0.
   */
  lemma {:induction false} SidecarTruth(ix: Index, t: Table, side: map<bytes, RowState>, h: History, k: bytes,
                                        text: bytes)
    requires Consistent(ix, t, side, h) && k !in h.unsure
    requires k in t.rows && TextOf(ix, t.rows[k]) == Some(text) && UpToDate(StateOf(side, k), ix.hash(text))
    ensures k !in side ==> ix.hash(text) == 0
    ensures k in side ==>
              k in h.origin && ix.hash(h.origin[k]) == ix.hash(text) && Embeds(ix, t.rows[k], h.origin[k])
  {
    if k in side {
      assert Recorded(ix, t, side, h, k);
    }
  }

  /** What the sidecar of a row says is so: the vector is one for the row's very text. */
  ghost predicate TrueAt(ix: Index, rows: map<bytes, Row>, side: map<bytes, RowState>, k: bytes) {
    k in rows && TextOf(ix, rows[k]).Some? && UpToDate(StateOf(side, k), ix.hash(TextOf(ix, rows[k]).value)) ==>
      Embeds(ix, rows[k], TextOf(ix, rows[k]).value)
  }

  /**
   * A row written without a vector under a key that may have been used before: what is taken for its sidecar is right
   * exactly when the sidecar there is for another hash or counts failures, or none is there and the hash is not 0.
   */
  lemma {:induction false} ReusedKeyIff(ix: Index, rows: map<bytes, Row>, side: map<bytes, RowState>, k: bytes,
                                        row: Row)
    requires ix.vecCol >= |row| || !row[ix.vecCol].Vector?
    ensures TrueAt(ix, rows[k := row], side, k) <==>
            TextOf(ix, row).None? ||
            (if k in side then side[k].hash != ix.hash(TextOf(ix, row).value) || side[k].attempts > 0
             else ix.hash(TextOf(ix, row).value) != 0)
  {
    assert rows[k := row][k] == row;
  }

  /** The row is due, after `attempts` failures for this text. */
  predicate Attemptable(state: RowState, hash: u64, attempts: nat) {
    && attempts == (if state.hash == hash then state.attempts else 0)
    && !UpToDate(state, hash) && attempts < MAX_ATTEMPTS
  }

  // ------------------------------------------------------------- what a client keeps

  /** The action puts a row under a used key, or another value in the vector column. */
  ghost predicate Doubtful(ix: Index, t: Table, a: Action) {
    match a
    case Insert(k, _) => k !in t.rows && k in t.used
    case Edit(k, row) => k in t.rows && |row| == |t.rows[k]| && ix.vecCol < |row|
                         && row[ix.vecCol] != t.rows[k][ix.vecCol]
    case Delete(_) => false
  }

  /** A change of a row's text starts its failure count again. */
  ghost function Acted(ix: Index, t: Table, h: History, a: Action): History {
    var t' := Act(ix, t, a);
    var same := a.k in t.rows && a.k in t'.rows && TextOf(ix, t.rows[a.k]) == TextOf(ix, t'.rows[a.k]);
    h.(done := h.done + [a], failures := if same then h.failures else h.failures[a.k := 0],
    unsure := if Doubtful(ix, t, a) then h.unsure + {a.k} else h.unsure)
  }

  lemma {:induction false} ActKeepsAgreement(ix: Index, a: Table, b: Table, act: Action)
    requires Agree(ix, a.rows, b.rows) && a.used == b.used
    ensures Agree(ix, Act(ix, a, act).rows, Act(ix, b, act).rows) && Act(ix, a, act).used == Act(ix, b, act).used
  {
  }

  lemma {:induction false} ActKeepsKept(ix: Index, t: Table, h: History, a: Action)
    requires Kept(ix, t, h)
    ensures Kept(ix, Act(ix, t, a), Acted(ix, t, h, a))
  {
    var done := h.done + [a];
    assert done[..|done| - 1] == h.done;
    ActKeepsAgreement(ix, t, ActAll(ix, h.base, h.done), a);
  }

  lemma {:induction false} ActKeepsRecorded(ix: Index, t: Table, side: map<bytes, RowState>, h: History, a: Action,
                                            k: bytes)
    requires Known(t, side) && k in Act(ix, t, a).rows && k in side
    requires k in t.rows ==> Recorded(ix, t, side, h, k)
    ensures Recorded(ix, Act(ix, t, a), side, Acted(ix, t, h, a), k)
  {
  }

  lemma {:induction false} ActKeepsCounted(ix: Index, t: Table, side: map<bytes, RowState>, h: History, a: Action,
                                           k: bytes)
    requires Sound(ix) && Known(t, side) && k in Act(ix, t, a).rows
    requires k in t.rows ==> Counted(ix, t.rows[k], StateOf(side, k), Failures(h, k))
    ensures Counted(ix, Act(ix, t, a).rows[k], StateOf(side, k), Failures(Acted(ix, t, h, a), k))
  {
  }

  lemma {:induction false} ActKeeps(ix: Index, t: Table, side: map<bytes, RowState>, h: History, a: Action)
    requires Sound(ix) && Consistent(ix, t, side, h)
    ensures Consistent(ix, Act(ix, t, a), side, Acted(ix, t, h, a))
  {
    ActKeepsKept(ix, t, h, a);
    forall k | k in Act(ix, t, a).rows ensures Counted(ix, Act(ix, t, a).rows[k], StateOf(side, k),
                                                       Failures(Acted(ix, t, h, a), k)) {
      ActKeepsCounted(ix, t, side, h, a, k);
    }
    forall k | k in Act(ix, t, a).rows && k in side ensures Recorded(ix, Act(ix, t, a), side, Acted(ix, t, h, a), k) {
      ActKeepsRecorded(ix, t, side, h, a, k);
    }
  }

  // ----------------------------------------------------- what the sweep's writes keep

  function Failed(state: RowState, hash: u64, clock: nat): RowState {
    var attempts := (if state.hash == hash then state.attempts else 0) + 1;
    RowState(hash, attempts, clock + Backoff(attempts))
  }

  /** A second, doubled for every failure up to the fourth. */
  function Delay(attempts: nat): nat {
    if attempts == 0 then 1000 else if attempts <= 4 then 2 * Delay(attempts - 1) else Delay(4)
  }

  lemma {:induction false} BackoffDoubles(attempts: nat)
    ensures Backoff(attempts) == Delay(attempts)
  {
    assert Delay(1) == 2000 && Delay(2) == 4000;
    assert Delay(3) == 8000 && Delay(4) == 16000;
  }

  /** The state after failures at these times for one text. */
  ghost function FailedAt(state: RowState, hash: u64, clocks: seq<nat>): RowState {
    if clocks == [] then state
    else Failed(FailedAt(state, hash, clocks[..|clocks| - 1]), hash, clocks[|clocks| - 1])
  }

  /**
   * Failures for one text, one after the other: each but the fifth leaves the row waiting for exactly the delay, the
   * fifth for ever. Another text does not wait at all.
   */
  lemma {:induction false} FiveFailures(state: RowState, hash: u64, clocks: seq<nat>, other: u64, now: nat)
    requires state.hash != hash && 1 <= |clocks| <= 5 && other != hash
    ensures
      var s, last := FailedAt(state, hash, clocks), clocks[|clocks| - 1];
      && s.attempts == |clocks| && !UpToDate(s, hash) && !UpToDate(s, other) && !Waiting(s, other, now)
      && (Waiting(s, hash, now) <==> |clocks| == 5 || now < last + Delay(|clocks|))
  {
    BackoffDoubles(|clocks|);
    if |clocks| > 1 {
      FiveFailures(state, hash, clocks[..|clocks| - 1], other, now);
    } else {
      assert FailedAt(state, hash, clocks[..0]) == state;
    }
  }

  /** A failure counts against the text only while the row still has it. */
  ghost function FailedHistory(ix: Index, t: Table, h: History, k: bytes, text: bytes): History {
    if k in t.rows && TextOf(ix, t.rows[k]) == Some(text)
    then h.(failures := h.failures[k := Failures(h, k) + 1]) else h
  }

  /** Since its text was read, a row that has another text has no failure counted. */
  ghost predicate Fresh(ix: Index, t: Table, h: History, k: bytes, text: bytes) {
    k in t.rows && TextOf(ix, t.rows[k]) != Some(text) ==> Failures(h, k) == 0
  }

  lemma {:induction false} FailureKeeps(ix: Index, t: Table, side: map<bytes, RowState>, h: History, k: bytes,
                                        text: bytes, clock: nat)
    requires Sound(ix) && Consistent(ix, t, side, h) && k in t.used && Fresh(ix, t, h, k, text)
    requires !UpToDate(StateOf(side, k), ix.hash(text))
    requires StateOf(side, k).hash == ix.hash(text) ==> StateOf(side, k).attempts < MAX_ATTEMPTS
    ensures Consistent(ix, t, side[k := Failed(StateOf(side, k), ix.hash(text), clock)],
                       FailedHistory(ix, t, h, k, text))
  {
    var side' := side[k := Failed(StateOf(side, k), ix.hash(text), clock)];
    var h' := FailedHistory(ix, t, h, k, text);
    forall j | j in t.rows ensures Counted(ix, t.rows[j], StateOf(side', j), Failures(h', j)) {
      assert Counted(ix, t.rows[j], StateOf(side, j), Failures(h, j));
    }
    forall j | j in t.rows && j in side' ensures Recorded(ix, t, side', h', j) {
      assert j != k ==> Recorded(ix, t, side, h, j);
    }
  }

  ghost function WrittenHistory(h: History, k: bytes, text: bytes): History {
    h.(origin := h.origin[k := text], unsure := h.unsure - {k})
  }

  function Written(ix: Index, t: Table, k: bytes, v: seq<u32>): Table
    requires k in t.rows && ix.vecCol < |t.rows[k]|
  {
    t.(rows := t.rows[k := t.rows[k][ix.vecCol := Vector(v)]])
  }

  /** What a successful write needs to be true when it commits. */
  ghost predicate Writable(ix: Index, t: Table, k: bytes, text: bytes, v: seq<u32>) {
    && k in t.rows && TextOf(ix, t.rows[k]) == Some(text) && ix.vecCol < |t.rows[k]|
    && |v| == ix.dimension && Answers(ix, text, v)
  }

  lemma {:induction false} WriteKeepsKept(ix: Index, t: Table, h: History, k: bytes, text: bytes, v: seq<u32>)
    requires Kept(ix, t, h) && Writable(ix, t, k, text, v)
    ensures Kept(ix, Written(ix, t, k, v), WrittenHistory(h, k, text))
  {
  }

  lemma {:induction false} WriteKeepsCounted(ix: Index, t: Table, side: map<bytes, RowState>, h: History, k: bytes,
                                             text: bytes, v: seq<u32>, j: bytes)
    requires Sound(ix) && Writable(ix, t, k, text, v) && j in t.rows
    requires Counted(ix, t.rows[j], StateOf(side, j), Failures(h, j))
    ensures Counted(ix, Written(ix, t, k, v).rows[j], StateOf(side[k := RowState(ix.hash(text), 0, 0)], j),
                    Failures(WrittenHistory(h, k, text), j))
  {
  }

  lemma {:induction false} WriteKeepsRecorded(ix: Index, t: Table, side: map<bytes, RowState>, h: History, k: bytes,
                                              text: bytes, v: seq<u32>, j: bytes)
    requires Writable(ix, t, k, text, v) && j in t.rows && (j != k ==> j in side && Recorded(ix, t, side, h, j))
    ensures Recorded(ix, Written(ix, t, k, v), side[k := RowState(ix.hash(text), 0, 0)], WrittenHistory(h, k, text), j)
  {
  }

  lemma {:induction false} WriteKeepsAllCounted(ix: Index, t: Table, side: map<bytes, RowState>, h: History, k: bytes,
                                                text: bytes, v: seq<u32>)
    requires Sound(ix) && AllCounted(ix, t, side, h) && Writable(ix, t, k, text, v)
    ensures AllCounted(ix, Written(ix, t, k, v), side[k := RowState(ix.hash(text), 0, 0)], WrittenHistory(h, k, text))
  {
    var t', side', h' := Written(ix, t, k, v), side[k := RowState(ix.hash(text), 0, 0)], WrittenHistory(h, k, text);
    forall j | j in t'.rows ensures Counted(ix, t'.rows[j], StateOf(side', j), Failures(h', j)) {
      WriteKeepsCounted(ix, t, side, h, k, text, v, j);
    }
  }

  lemma {:induction false} WriteKeepsAllRecorded(ix: Index, t: Table, side: map<bytes, RowState>, h: History, k: bytes,
                                                 text: bytes, v: seq<u32>)
    requires AllRecorded(ix, t, side, h) && Writable(ix, t, k, text, v)
    ensures AllRecorded(ix, Written(ix, t, k, v), side[k := RowState(ix.hash(text), 0, 0)], WrittenHistory(h, k, text))
  {
    var t', side', h' := Written(ix, t, k, v), side[k := RowState(ix.hash(text), 0, 0)], WrittenHistory(h, k, text);
    forall j | j in t'.rows && j in side' ensures Recorded(ix, t', side', h', j) {
      WriteKeepsRecorded(ix, t, side, h, k, text, v, j);
    }
  }

  lemma {:induction false} WriteKeeps(ix: Index, t: Table, side: map<bytes, RowState>, h: History, k: bytes,
                                      text: bytes, v: seq<u32>)
    requires Sound(ix) && Consistent(ix, t, side, h) && Writable(ix, t, k, text, v)
    ensures Consistent(ix, Written(ix, t, k, v), side[k := RowState(ix.hash(text), 0, 0)], WrittenHistory(h, k, text))
  {
    WriteKeepsKept(ix, t, h, k, text, v);
    WriteKeepsAllCounted(ix, t, side, h, k, text, v);
    WriteKeepsAllRecorded(ix, t, side, h, k, text, v);
  }

  lemma {:induction false} DropKeeps(ix: Index, t: Table, side: map<bytes, RowState>, h: History, k: bytes)
    requires Consistent(ix, t, side, h) && k !in t.rows
    ensures Consistent(ix, t, side - {k}, h)
  {
    forall j | j in t.rows ensures Counted(ix, t.rows[j], StateOf(side - {k}, j), Failures(h, j)) {
      assert Counted(ix, t.rows[j], StateOf(side, j), Failures(h, j));
    }
    forall j | j in t.rows && j in side - {k} ensures Recorded(ix, t, side - {k}, h, j) {
      assert Recorded(ix, t, side, h, j);
    }
  }

  lemma {:induction false} ActKeepsFresh(ix: Index, t: Table, h: History, a: Action, k: bytes, text: bytes)
    requires t.rows.Keys <= t.used && Fresh(ix, t, h, k, text)
    ensures Fresh(ix, Act(ix, t, a), Acted(ix, t, h, a), k, text)
  {
  }

  // ------------------------------------------------------------- runs of the protocol

  datatype World = World(t: Table, side: map<bytes, RowState>, h: History)

  /** What can happen: a client acts; the sweep writes a vector, records a failure, or drops a sidecar. */
  datatype Step =
    | Client(a: Action)
    | Embed(k: bytes, text: bytes, v: seq<u32>)
    | Fail(k: bytes, text: bytes, clock: nat)
    | Forget(k: bytes)

  ghost predicate Failing(ix: Index, w: World, k: bytes, text: bytes) {
    && k in w.t.used && Fresh(ix, w.t, w.h, k, text) && !UpToDate(StateOf(w.side, k), ix.hash(text))
    && (StateOf(w.side, k).hash == ix.hash(text) ==> StateOf(w.side, k).attempts < MAX_ATTEMPTS)
  }

  /** A step that cannot be taken changes nothing. */
  ghost function Next(ix: Index, w: World, s: Step): World {
    match s
    case Client(a) => World(Act(ix, w.t, a), w.side, Acted(ix, w.t, w.h, a))
    case Embed(k, text, v) =>
      if !Writable(ix, w.t, k, text, v) then w
      else World(Written(ix, w.t, k, v), w.side[k := RowState(ix.hash(text), 0, 0)], WrittenHistory(w.h, k, text))
    case Fail(k, text, clock) =>
      if !Failing(ix, w, k, text) then w
      else World(w.t, w.side[k := Failed(StateOf(w.side, k), ix.hash(text), clock)],
                 FailedHistory(ix, w.t, w.h, k, text))
    case Forget(k) => if k in w.t.rows then w else w.(side := w.side - {k})
  }

  ghost function Run(ix: Index, w: World, steps: seq<Step>): World {
    if steps == [] then w else Next(ix, Run(ix, w, steps[..|steps| - 1]), steps[|steps| - 1])
  }

  /** A table no sweep has seen. */
  ghost function Start(rows: map<bytes, Row>): World {
    var t := Table(rows, rows.Keys);
    World(t, map[], History(t, [], map[], map[], {}))
  }

  ghost predicate Reachable(ix: Index, w: World) {
    exists steps :: w == Run(ix, Start(w.h.base.rows), steps)
  }

  lemma {:induction false} StartReachable(ix: Index, rows: map<bytes, Row>)
    ensures Reachable(ix, Start(rows))
  {
    assert Start(rows) == Run(ix, Start(rows), []);
  }

  lemma {:induction false} NextReachable(ix: Index, w: World, s: Step)
    requires Reachable(ix, w)
    ensures Reachable(ix, Next(ix, w, s))
  {
    var steps :| w == Run(ix, Start(w.h.base.rows), steps);
    var more := steps + [s];
    assert more[..|more| - 1] == steps;
    assert Next(ix, w, s) == Run(ix, Start(w.h.base.rows), more);
  }

  lemma {:induction false} NextKeeps(ix: Index, w: World, s: Step)
    requires Sound(ix) && Consistent(ix, w.t, w.side, w.h)
    ensures
      var w' := Next(ix, w, s);
      Consistent(ix, w'.t, w'.side, w'.h)
  {
    match s
    case Client(a) => ActKeeps(ix, w.t, w.side, w.h, a);
    case Embed(k, text, v) => if Writable(ix, w.t, k, text, v) { WriteKeeps(ix, w.t, w.side, w.h, k, text, v); }
    case Fail(k, text, clock) =>
      if Failing(ix, w, k, text) { FailureKeeps(ix, w.t, w.side, w.h, k, text, clock); }
    case Forget(k) => if k !in w.t.rows { DropKeeps(ix, w.t, w.side, w.h, k); }
  }

  lemma {:induction false} RunKeeps(ix: Index, rows: map<bytes, Row>, steps: seq<Step>)
    requires Sound(ix)
    ensures
      var w := Run(ix, Start(rows), steps);
      Consistent(ix, w.t, w.side, w.h)
  {
    if steps != [] {
      var rest := steps[..|steps| - 1];
      RunKeeps(ix, rows, rest);
      NextKeeps(ix, Run(ix, Start(rows), rest), steps[|steps| - 1]);
    }
  }

  /** The invariant holds along every run. */
  lemma {:induction false} ReachableConsistent(ix: Index, w: World)
    requires Sound(ix) && Reachable(ix, w)
    ensures Consistent(ix, w.t, w.side, w.h)
  {
    var steps :| w == Run(ix, Start(w.h.base.rows), steps);
    RunKeeps(ix, w.h.base.rows, steps);
  }

  /** Whatever happens, at most five failures are counted against a row's text. */
  lemma {:induction false} FailuresCapped(ix: Index, w: World, k: bytes)
    requires Sound(ix) && Reachable(ix, w)
    ensures k in w.t.rows ==> Failures(w.h, k) <= 5
    ensures k in w.side ==> w.side[k].attempts <= 5
  {
    ReachableConsistent(ix, w);
    assert k in w.t.rows ==> Counted(ix, w.t.rows[k], StateOf(w.side, k), Failures(w.h, k));
  }

  // --------------------------------------------------------- when sidecars are right

  ghost predicate RowWithin(ix: Index, texts: set<bytes>, row: Row) {
    TextOf(ix, row).Some? ==> TextOf(ix, row).value in texts
  }

  /** The texts the table started with and those clients wrote are among `texts`. */
  ghost predicate Within(ix: Index, texts: set<bytes>, base: Table, acts: seq<Action>) {
    && (forall k | k in base.rows :: RowWithin(ix, texts, base.rows[k]))
    && (forall i | 0 <= i < |acts| :: acts[i].Delete? || RowWithin(ix, texts, acts[i].row))
  }

  /** Whatever vector of the declared dimension the provider returns for `a`, it also returns for `b`. */
  ghost predicate Serves(ix: Index, a: bytes, b: bytes) {
    forall v | |v| == ix.dimension && Answers(ix, a, v) :: Answers(ix, b, v)
  }

  /** The hash tells the texts apart: none has the hash of no sidecar, and two with one hash have the same vectors. */
  ghost predicate Told(ix: Index, texts: set<bytes>) {
    && (forall a | a in texts :: ix.hash(a) != 0)
    && (forall a, b | a in texts && b in texts && ix.hash(a) == ix.hash(b) :: Serves(ix, a, b))
  }

  ghost predicate AllTrue(ix: Index, w: World) {
    forall k | k !in w.h.unsure :: TrueAt(ix, w.t.rows, w.side, k)
  }

  ghost predicate Sourced(ix: Index, texts: set<bytes>, w: World) {
    && (forall k | k in w.t.rows :: RowWithin(ix, texts, w.t.rows[k]))
    && (forall k | k in w.h.origin :: w.h.origin[k] in texts)
  }

  lemma {:induction false} NextSourced(ix: Index, texts: set<bytes>, w: World, s: Step)
    requires Sound(ix) && Sourced(ix, texts, w) && Within(ix, texts, w.h.base, Next(ix, w, s).h.done)
    ensures Sourced(ix, texts, Next(ix, w, s))
  {
    var w' := Next(ix, w, s);
    match s
    case Client(a) =>
      assert w'.h.done[|w.h.done|] == a;
    case Embed(k, text, v) =>
      if Writable(ix, w.t, k, text, v) {
        SameText(ix, w.t.rows[k], w'.t.rows[k]);
      }
    case Fail(_, _, _) =>
    case Forget(_) =>
  }

  lemma {:induction false} RunSourced(ix: Index, texts: set<bytes>, rows: map<bytes, Row>, steps: seq<Step>)
    requires Sound(ix) && Within(ix, texts, Start(rows).t, Run(ix, Start(rows), steps).h.done)
    ensures Sourced(ix, texts, Run(ix, Start(rows), steps)) && Run(ix, Start(rows), steps).h.base == Start(rows).t
  {
    if steps != [] {
      var rest := steps[..|steps| - 1];
      var w := Run(ix, Start(rows), rest);
      var done := Next(ix, w, steps[|steps| - 1]).h.done;
      assert w.h.done <= done;
      assert forall i | 0 <= i < |w.h.done| :: w.h.done[i] == done[i];
      RunSourced(ix, texts, rows, rest);
      NextSourced(ix, texts, w, steps[|steps| - 1]);
    }
  }

  /** With texts the hash tells apart, every sidecar is right in every run. */
  lemma {:induction false} ToldMeansTrue(ix: Index, texts: set<bytes>, w: World)
    requires Sound(ix) && Told(ix, texts) && Reachable(ix, w) && Within(ix, texts, w.h.base, w.h.done)
    ensures AllTrue(ix, w)
  {
    ReachableConsistent(ix, w);
    var steps :| w == Run(ix, Start(w.h.base.rows), steps);
    RunSourced(ix, texts, w.h.base.rows, steps);
    forall k | k !in w.h.unsure ensures TrueAt(ix, w.t.rows, w.side, k) {
      if k in w.t.rows && TextOf(ix, w.t.rows[k]).Some?
         && UpToDate(StateOf(w.side, k), ix.hash(TextOf(ix, w.t.rows[k]).value)) {
        var text := TextOf(ix, w.t.rows[k]).value;
        SidecarTruth(ix, w.t, w.side, w.h, k, text);
        assert RowWithin(ix, texts, w.t.rows[k]);
        assert Serves(ix, w.h.origin[k], text);
      }
    }
  }

  /** A row with this text, this value in the vector column and nothing else. */
  function RowOf(ix: Index, text: bytes, vector: Value): (row: Row)
    requires Sound(ix)
    ensures ix.textCol < |row| && ix.vecCol < |row| && row[ix.textCol] == Text(text) && row[ix.vecCol] == vector
  {
    seq(ix.textCol + ix.vecCol + 1, i =>
      if i == ix.textCol then Text(text) else if i == ix.vecCol then vector else Null)
  }

  /** A text of hash 0 is taken for embedded with no vector. */
  lemma {:induction false} ZeroHashRun(ix: Index, text: bytes) returns (w: World)
    requires Sound(ix) && !ix.blank(text) && ix.hash(text) == 0
    ensures Reachable(ix, w) && Within(ix, {text}, w.h.base, w.h.done) && !AllTrue(ix, w)
  {
    var k: bytes := [];
    w := Start(map[k := RowOf(ix, text, Null)]);
    StartReachable(ix, w.h.base.rows);
    assert !TrueAt(ix, w.t.rows, w.side, k);
  }

  /** After an edit to a text of the same hash, the old vector is taken for current. */
  lemma {:induction false} CollisionRun(ix: Index, a: bytes, b: bytes, v: seq<u32>) returns (w: World)
    requires Sound(ix) && !ix.blank(a) && !ix.blank(b) && ix.hash(a) == ix.hash(b)
    requires |v| == ix.dimension && Answers(ix, a, v) && !Answers(ix, b, v)
    ensures Reachable(ix, w) && Within(ix, {a, b}, w.h.base, w.h.done) && !AllTrue(ix, w)
  {
    var k: bytes := [];
    var w0 := Start(map[k := RowOf(ix, a, Null)]);
    StartReachable(ix, w0.h.base.rows);
    var w1 := Next(ix, w0, Embed(k, a, v));
    NextReachable(ix, w0, Embed(k, a, v));
    assert Writable(ix, w0.t, k, a, v);
    var row := w1.t.rows[k][ix.textCol := Text(b)];
    w := Next(ix, w1, Client(Edit(k, row)));
    NextReachable(ix, w1, Client(Edit(k, row)));
    assert w.t.rows[k] == row && w.h.done == [Edit(k, row)];
    assert !TrueAt(ix, w.t.rows, w.side, k);
  }

  /**
   * Exactly when sidecars can be trusted: over all runs in which clients write only these texts, every up-to-date row
   * whose key was not reused and whose vector no client wrote has a vector for its text, if and only if the hash tells
   * the texts apart.
   */
  lemma {:induction false} SidecarsTrueIff(ix: Index, texts: set<bytes>)
    requires Sound(ix) && forall a | a in texts :: !ix.blank(a)
    ensures Told(ix, texts) <==>
            forall w | Reachable(ix, w) && Within(ix, texts, w.h.base, w.h.done) :: AllTrue(ix, w)
  {
    if Told(ix, texts) {
      forall w | Reachable(ix, w) && Within(ix, texts, w.h.base, w.h.done) ensures AllTrue(ix, w) {
        ToldMeansTrue(ix, texts, w);
      }
    } else if a :| a in texts && ix.hash(a) == 0 {
      var w := ZeroHashRun(ix, a);
      Wider(ix, {a}, texts, w.h.base, w.h.done);
    } else {
      var a, b :| a in texts && b in texts && ix.hash(a) == ix.hash(b) && !Serves(ix, a, b);
      var v :| |v| == ix.dimension && Answers(ix, a, v) && !Answers(ix, b, v);
      var w := CollisionRun(ix, a, b, v);
      Wider(ix, {a, b}, texts, w.h.base, w.h.done);
    }
  }

  /** An index and two texts that meet what is asked of them above and in what follows. */
  lemma {:induction false} ToldInstance() returns (ix: Index, texts: set<bytes>)
    ensures Sound(ix) && Succeeds(ix) && |texts| == 2 && (forall a | a in texts :: !ix.blank(a)) && Told(ix, texts)
  {
    ix := Index(0, 1, 1, s => s == [], s => if |s| == 1 then 1 else 2, (n, s) => Reply(Some([|s| % 2]), 0, false));
    texts := {[65], [65, 66]};
    forall a, b | a in texts && b in texts && ix.hash(a) == ix.hash(b) ensures Serves(ix, a, b) {
      assert a == b;
    }
  }

  /** No index tells all texts apart: of 2^64 + 1 texts two share a hash. */
  lemma {:induction false} HashesRepeat(ix: Index) returns (a: bytes, b: bytes)
    ensures a != b && ix.hash(a) == ix.hash(b)
  {
    var f: nat -> nat := n => HashOfZeros(ix, n);
    var i, j := Pigeons(f, 0x1_0000_0000_0000_0000);
    a, b := Zeros(i), Zeros(j);
  }

  function HashOfZeros(ix: Index, n: nat): (r: nat)
    ensures r < 0x1_0000_0000_0000_0000
  {
    ix.hash(Zeros(n))
  }

  function Zeros(n: nat): (s: bytes)
    ensures |s| == n
  {
    seq(n, _ => 0)
  }

  /** Two of the first `n + 1` numbers go to one of `n` places. */
  lemma {:induction false} Pigeons(f: nat -> nat, n: nat) returns (i: nat, j: nat)
    requires forall k | 0 <= k <= n :: f(k) < n
    ensures i < j <= n && f(i) == f(j)
    decreases n
  {
    if k :| 0 <= k < n && f(k) == f(n) {
      return k, n;
    }
    var g := (k: nat) => if f(k) == n - 1 then f(n) else f(k);
    i, j := Pigeons(g, n - 1);
  }

  lemma {:induction false} Wider(ix: Index, few: set<bytes>, texts: set<bytes>, base: Table, acts: seq<Action>)
    requires few <= texts && Within(ix, few, base, acts)
    ensures Within(ix, texts, base, acts)
  {
    assert forall k | k in base.rows :: RowWithin(ix, few, base.rows[k]);
    assert forall i | 0 <= i < |acts| :: acts[i].Delete? || RowWithin(ix, few, acts[i].row);
  }

  // ------------------------------------------------- a sweep with no one else about

  /** A row the sweep will try at time `now`. */
  predicate DueRow(ix: Index, row: Row, state: RowState, now: nat) {
    var text := TextOf(ix, row);
    && text.Some?
    && !UpToDate(state, ix.hash(text.value))
    && !Waiting(state, ix.hash(text.value), now)
  }

  ghost function Due(ix: Index, rows: map<bytes, Row>, side: map<bytes, RowState>, now: nat): set<bytes> {
    set k | k in rows && DueRow(ix, rows[k], StateOf(side, k), now)
  }

  ghost predicate Shaped(ix: Index, rows: map<bytes, Row>) {
    forall k | k in rows :: ix.vecCol < |rows[k]|
  }

  ghost predicate Succeeds(ix: Index) {
    forall n, text :: ix.embed(n, text).vector.Some? && |ix.embed(n, text).vector.value| == ix.dimension
                      && !ix.embed(n, text).raced
  }

  ghost predicate RefreshedRows(ix: Index, rows0: map<bytes, Row>, rows: map<bytes, Row>, touched: set<bytes>) {
    && touched <= rows0.Keys
    && Agree(ix, rows, rows0)
    && (forall k | k in rows && k !in touched :: rows[k] == rows0[k])
  }

  ghost predicate Current(ix: Index, row: Row, state: RowState) {
    var text := TextOf(ix, row);
    text.Some? && state == RowState(ix.hash(text.value), 0, 0)
  }

  ghost predicate RefreshedSide(ix: Index, rows0: map<bytes, Row>, side0: map<bytes, RowState>,
                                side: map<bytes, RowState>,
                                touched: set<bytes>) {
    && (forall k | k !in touched :: (k in side <==> k in side0) && StateOf(side, k) == StateOf(side0, k))
    && (forall k | k in touched :: k in rows0 && Current(ix, rows0[k], StateOf(side, k)))
  }

  /** Exactly the rows of `touched` were brought up to date; nothing else changed. */
  ghost predicate Refreshed(ix: Index, rows0: map<bytes, Row>, side0: map<bytes, RowState>, rows: map<bytes, Row>,
                            side: map<bytes, RowState>, touched: set<bytes>) {
    RefreshedRows(ix, rows0, rows, touched) && RefreshedSide(ix, rows0, side0, side, touched)
  }

  lemma {:induction false} SameText(ix: Index, a: Row, b: Row)
    requires Sound(ix) && SameButVector(ix, a, b)
    ensures TextOf(ix, a) == TextOf(ix, b)
  {
  }

  lemma {:induction false} RefreshRow(ix: Index, rows0: map<bytes, Row>, t: Table, touched: set<bytes>, k: bytes,
                                      v: seq<u32>)
    requires RefreshedRows(ix, rows0, t.rows, touched) && k in t.rows && ix.vecCol < |t.rows[k]|
    ensures RefreshedRows(ix, rows0, Written(ix, t, k, v).rows, touched + {k})
  {
    var rows := Written(ix, t, k, v).rows;
    forall j | j in rows ensures SameButVector(ix, rows[j], rows0[j]) {
      assert SameButVector(ix, t.rows[j], rows0[j]);
    }
  }

  lemma {:induction false} RefreshState(ix: Index, rows0: map<bytes, Row>, side0: map<bytes, RowState>,
                                        side: map<bytes, RowState>,
                                        touched: set<bytes>, k: bytes, text: bytes)
    requires RefreshedSide(ix, rows0, side0, side, touched) && k in rows0 && TextOf(ix, rows0[k]) == Some(text)
    ensures RefreshedSide(ix, rows0, side0, side[k := RowState(ix.hash(text), 0, 0)], touched + {k})
  {
  }

  lemma {:induction false} RefreshOne(ix: Index, rows0: map<bytes, Row>, side0: map<bytes, RowState>, t: Table,
                                      side: map<bytes, RowState>, touched: set<bytes>, k: bytes, text: bytes,
                                      v: seq<u32>)
    requires Sound(ix) && Refreshed(ix, rows0, side0, t.rows, side, touched)
    requires k in t.rows && ix.vecCol < |t.rows[k]| && TextOf(ix, t.rows[k]) == Some(text)
    ensures Refreshed(ix, rows0, side0, Written(ix, t, k, v).rows, side[k := RowState(ix.hash(text), 0, 0)],
                      touched + {k})
  {
    SameText(ix, t.rows[k], rows0[k]);
    RefreshRow(ix, rows0, t, touched, k, v);
    RefreshState(ix, rows0, side0, side, touched, k, text);
  }

  // -------------------------------------------------------------------- the sweep

  /**
   * `Reachable` under a quantifier, which keeps it folded in the methods below except where `Open` is used.
   */
  ghost predicate Intact(ix: Index, w: World) {
    forall n: nat :: Folded(n, ix, w)
  }

  ghost predicate Folded(n: nat, ix: Index, w: World) {
    Reachable(ix, w)
  }

  lemma {:induction false} Open(ix: Index, w: World)
    requires Intact(ix, w)
    ensures Reachable(ix, w)
  {
    assert Folded(0, ix, w);
  }

  lemma {:induction false} StartIntact(ix: Index, rows: map<bytes, Row>)
    ensures Intact(ix, Start(rows))
  {
    StartReachable(ix, rows);
  }

  lemma {:induction false} NextIntact(ix: Index, w: World, s: Step)
    requires Intact(ix, w)
    ensures Intact(ix, Next(ix, w, s))
  {
    Open(ix, w);
    NextReachable(ix, w, s);
  }

  lemma {:induction false} ActStaysFresh(ix: Index, w: World, a: Action)
    requires Sound(ix) && Intact(ix, w)
    ensures StaysFresh(ix, w.t, w.h, Act(ix, w.t, a), Acted(ix, w.t, w.h, a), None)
    ensures w.t.used <= Act(ix, w.t, a).used && Act(ix, w.t, a).rows.Keys <= Act(ix, w.t, a).used
  {
    Open(ix, w);
    ReachableConsistent(ix, w);
    forall k, text | Fresh(ix, w.t, w.h, k, text)
      ensures Fresh(ix, Act(ix, w.t, a), Acted(ix, w.t, w.h, a), k, text)
    {
      ActKeepsFresh(ix, w.t, w.h, a, k, text);
    }
  }

  ghost function Flat(script: seq<seq<Action>>): seq<Action> {
    if script == [] then [] else script[0] + Flat(script[1..])
  }

  lemma {:induction false} AgendaStep(done: seq<Action>, script: seq<seq<Action>>)
    requires script != []
    ensures (done + script[0]) + Flat(script[1..]) == done + Flat(script)
  {
  }

  ghost predicate StaysFresh(ix: Index, t0: Table, h0: History, t: Table, h: History, but: Option<bytes>) {
    forall k, text | but != Some(k) && Fresh(ix, t0, h0, k, text) :: Fresh(ix, t, h, k, text)
  }

  /** The rows and sidecars of one table, and the clients that share it: what they do at each point where the
      sweep waits is the next element of `script`. */
  class Db {
    var rows: map<bytes, Row>
    var used: set<bytes>
    var side: map<bytes, RowState>
    var wcount: nat
    var script: seq<seq<Action>>
    var calls: nat
    ghost var h: History
    /** Where the table started, and all that clients did and will do. */
    ghost const base: Table
    ghost const agenda: seq<Action>

    /** A table no sweep has seen. */
    constructor (ix: Index, table: map<bytes, Row>, work: seq<seq<Action>>)
      requires Sound(ix)
      ensures Inv(ix) && rows == table && side == map[] && script == work && base.rows == table && agenda == Flat(work)
    {
      rows, used, side, wcount, script, calls := table, table.Keys, map[], 0, work, 0;
      h := History(Table(table, table.Keys), [], map[], map[], {});
      base, agenda := Table(table, table.Keys), Flat(work);
      new;
      StartIntact(ix, table);
    }

    ghost predicate Inv(ix: Index)
      reads this
    {
      && Sound(ix) && Intact(ix, Now())
      && h.base == base && h.done + Flat(script) == agenda && rows.Keys <= used
    }

    /** Keys stay known; once clients are done none appears or goes. */
    ghost predicate Since(used0: set<bytes>, script0: seq<seq<Action>>, keys0: set<bytes>)
      reads this
    {
      used0 <= used && |script| <= |script0| && (script0 == [] ==> script == [] && rows.Keys == keys0)
    }

    ghost function Now(): World
      reads this
    {
      World(Table(rows, used), side, h)
    }

    ghost function View(r: Report): Calm
      reads this
    {
      Calm(rows, side, calls, r)
    }

    /** While clients write only texts the hash tells apart, the sidecars are right, whenever one looks. */
    lemma {:induction false} SidecarsRight(ix: Index, texts: set<bytes>)
      requires Inv(ix) && Told(ix, texts) && Within(ix, texts, base, agenda)
      ensures AllTrue(ix, Now())
    {
      assert forall i | 0 <= i < |h.done| :: h.done[i] == agenda[i];
      Open(ix, Now());
      ToldMeansTrue(ix, texts, Now());
    }

    /** The sweep waits; clients go on. */
    method Interfere(ix: Index)
      requires Inv(ix)
      modifies this`rows, this`used, this`script, this`h
      ensures Inv(ix)
      ensures old(script) == [] ==> rows == old(rows) && used == old(used) && script == [] && h == old(h)
      ensures old(script) != [] ==> script == old(script)[1..]
      ensures old(used) <= used
      ensures StaysFresh(ix, old(Table(rows, used)), old(h), Table(rows, used), h, None)
    {
      if script == [] { return; }
      var acts := script[0];
      script := script[1..];
      for i := 0 to |acts|
        invariant Sound(ix) && Intact(ix, Now()) && script == old(script)[1..]
        invariant h.done == old(h.done) + acts[..i] && h.base == base
        invariant old(used) <= used && rows.Keys <= used
        invariant StaysFresh(ix, old(Table(rows, used)), old(h), Table(rows, used), h, None)
      {
        var t := Table(rows, used);
        ActStaysFresh(ix, Now(), acts[i]);
        NextIntact(ix, Now(), Client(acts[i]));
        StaysFreshTwice(ix, old(Table(rows, used)), old(h), t, h, Act(ix, t, acts[i]), Acted(ix, t, h, acts[i]), None,
                        None);
        h := Acted(ix, t, h, acts[i]);
        t := Act(ix, t, acts[i]);
        rows, used := t.rows, t.used;
        assert acts[..i + 1] == acts[..i] + [acts[i]];
      }
      assert acts[..|acts|] == acts;
      AgendaStep(old(h.done), old(script));
    }

    /** Writes the vector if the row is exactly as it was read; a deleted row's sidecar goes with it. */
    method WriteVector(ix: Index, k: bytes, expected: Row, ghost text: bytes, hash: u64, v: seq<u32>, raced: bool)
      returns (ok: bool)
      requires Inv(ix) && TextOf(ix, expected) == Some(text) && hash == ix.hash(text)
      requires |v| == ix.dimension && Answers(ix, text, v)
      modifies this`rows, this`side, this`wcount, this`h
      ensures Inv(ix)
      ensures ok <==> !raced && (k in old(rows) ==> old(rows)[k] == expected && ix.vecCol < |expected|)
      ensures !ok ==> rows == old(rows) && side == old(side) && wcount == old(wcount)
      ensures ok && k !in old(rows) ==> rows == old(rows) && side == old(side) - {k} && wcount == old(wcount)
      ensures ok && k in old(rows) ==>
                && rows == Written(ix, old(Table(rows, used)), k, v).rows
                && side == old(side)[k := RowState(hash, 0, 0)] && wcount == old(wcount) + 1
      ensures StaysFresh(ix, old(Table(rows, used)), old(h), Table(rows, used), h, None)
    {
      if raced { return false; }
      ghost var t := Table(rows, used);
      if k !in rows {
        NextIntact(ix, Now(), Forget(k));
        side := side - {k};
        return true;
      }
      if rows[k] != expected || ix.vecCol >= |rows[k]| { return false; }
      NextIntact(ix, Now(), Embed(k, text, v));
      WriteStaysFresh(ix, t, h, k, text, v);
      rows := rows[k := expected[ix.vecCol := Vector(v)]];
      side := side[k := RowState(hash, 0, 0)];
      wcount := wcount + 1;
      h := WrittenHistory(h, k, text);
      return true;
    }

    /** Records a failed attempt for the text that was sent. */
    method RecordFailure(ix: Index, k: bytes, ghost text: bytes, hash: u64, attempts: nat, clock: nat)
      requires Inv(ix) && hash == ix.hash(text) && k in used && Fresh(ix, Table(rows, used), h, k, text)
      requires Attemptable(StateOf(side, k), hash, attempts)
      modifies this`side, this`h
      ensures Inv(ix)
      ensures side == old(side)[k := RowState(hash, attempts + 1, clock + Delay(attempts + 1))]
      ensures StaysFresh(ix, Table(rows, used), old(h), Table(rows, used), h, Some(k))
    {
      ghost var t, state := Table(rows, used), StateOf(side, k);
      NextIntact(ix, Now(), Fail(k, text, clock));
      FailureStaysFresh(ix, t, h, k, text);
      FailedState(state, hash, attempts, clock);
      BackoffDoubles(attempts + 1);
      side := side[k := RowState(hash, attempts + 1, clock + Backoff(attempts + 1))];
      h := FailedHistory(ix, t, h, k, text);
    }

    /** One row of a batch, as it was read when the batch was scanned. */
    method Visit(ix: Index, k: bytes, row: Row, now: nat, budget: nat, report: Report) returns (r: Report)
      requires Inv(ix) && k in used
      requires TextOf(ix, row).Some? ==> Fresh(ix, Table(rows, used), h, k, TextOf(ix, row).value)
      requires report.embedded + report.failed <= budget
      modifies this
      ensures Inv(ix) && Since(old(used), old(script), old(rows.Keys)) && r.embedded + r.failed <= budget
      ensures StaysFresh(ix, old(Table(rows, used)), old(h), Table(rows, used), h, Some(k))
      ensures old(script) == [] && k in old(rows) && old(rows)[k] == row ==>
                View(r) == Alone(ix, old(View(report)), k, now, budget)
    {
      r := report;
      var text := TextOf(ix, row);
      if text.None? { return; }
      var hash := ix.hash(text.value);
      Interfere(ix);
      var state := StateOf(side, k);
      if state.hash == hash && state.attempts == 0 { return; }
      var changed := state.hash != hash;
      var attempts := if changed then 0 else state.attempts;
      if !changed && (attempts >= MAX_ATTEMPTS || now < state.nextAttempt) {
        r := report.(deferred := report.deferred + 1);
        return;
      }
      if report.embedded + report.failed >= budget {
        r := report.(deferred := report.deferred + 1);
        return;
      }
      r := Attempt(ix, k, row, text.value, hash, attempts, report);
    }

    /** The provider call for a row that is due, and what it leads to. */
    method Attempt(ix: Index, k: bytes, row: Row, text: bytes, hash: u64, attempts: nat, report: Report)
      returns (r: Report)
      requires Inv(ix) && k in used && TextOf(ix, row) == Some(text) && hash == ix.hash(text)
      requires Fresh(ix, Table(rows, used), h, k, text)
      requires Attemptable(StateOf(side, k), hash, attempts)
      modifies this
      ensures Inv(ix) && Since(old(used), old(script), old(rows.Keys))
      ensures r.embedded + r.failed <= report.embedded + report.failed + 1
      ensures StaysFresh(ix, old(Table(rows, used)), old(h), Table(rows, used), h, Some(k))
      ensures old(script) == [] && k in old(rows) && old(rows)[k] == row ==>
                View(r) == Answered(ix, old(View(report)), k, text,
                                    ix.embed(old(calls), text)).(calls := old(calls) + 1)
    {
      var reply := ix.embed(calls, text);
      if k in rows { AnsweredCalls(ix, View(report), k, text, reply, calls + 1); }
      calls := calls + 1;
      Interfere(ix);
      ghost var t1, h1 := Table(rows, used), h;
      r := Respond(ix, k, row, text, hash, attempts, reply, report);
      StaysFreshTwice(ix, old(Table(rows, used)), old(h), t1, h1, Table(rows, used), h, None, Some(k));
    }

    method Respond(ix: Index, k: bytes, row: Row, text: bytes, hash: u64, attempts: nat, reply: Reply, report: Report)
      returns (r: Report)
      requires Inv(ix) && k in used && TextOf(ix, row) == Some(text) && hash == ix.hash(text)
      requires Fresh(ix, Table(rows, used), h, k, text)
      requires Attemptable(StateOf(side, k), hash, attempts)
      requires reply.vector.Some? ==> Answers(ix, text, reply.vector.value)
      modifies this`rows, this`side, this`wcount, this`h
      ensures Inv(ix)
      ensures r.embedded + r.failed <= report.embedded + report.failed + 1
      ensures StaysFresh(ix, old(Table(rows, used)), old(h), Table(rows, used), h, Some(k))
      ensures rows.Keys == old(rows).Keys
      ensures k in old(rows) && old(rows)[k] == row ==> View(r) == Answered(ix, old(View(report)), k, text, reply)
    {
      if reply.vector.None? || |reply.vector.value| != ix.dimension {
        if k in rows { AnsweredBadly(ix, View(report), k, text, reply, attempts); }
        RecordFailure(ix, k, text, hash, attempts, reply.clock);
        r := report.(failed := report.failed + 1);
        return;
      }
      if k in rows { AnsweredWell(ix, View(report), k, text, reply); }
      var ok := WriteVector(ix, k, row, text, hash, reply.vector.value, reply.raced);
      r := if ok then report.(embedded := report.embedded + 1) else report.(conflicted := report.conflicted + 1);
    }

    /** The rows of one scanned batch. */
    method SweepBatch(ix: Index, batch: seq<bytes>, snap: map<bytes, Row>, now: nat, budget: nat, report: Report)
      returns (r: Report)
      requires Inv(ix) && report.embedded + report.failed <= budget && Distinct(batch)
      requires AllSnapped(ix, Table(rows, used), h, batch, 0, snap)
      modifies this
      ensures Inv(ix) && Since(old(used), old(script), old(rows.Keys)) && r.embedded + r.failed <= budget
      ensures old(script) == [] && Unread(old(rows), snap, batch, 0) ==>
                View(r) == AloneAll(ix, old(View(report)), batch, now, budget)
    {
      r := report;
      ghost var quiet := script == [] && Unread(rows, snap, batch, 0);
      var i := 0;
      while i < |batch|
        invariant 0 <= i <= |batch| && Inv(ix) && Since(old(used), old(script), old(rows.Keys))
        invariant r.embedded + r.failed <= budget
        invariant AllSnapped(ix, Table(rows, used), h, batch, i, snap)
        invariant quiet ==>
                    Unread(rows, snap, batch, i) && View(r) == AloneAll(ix, old(View(report)), batch[..i], now, budget)
      {
        ghost var t0, h0, c0 := Table(rows, used), h, View(r);
        r := Visit(ix, batch[i], snap[batch[i]], now, budget, r);
        StaysAllSnapped(ix, t0, h0, Table(rows, used), h, batch, i, snap);
        if quiet { AloneNext(ix, old(View(report)), c0, batch, i, snap, now, budget); }
        i := i + 1;
      }
      assert batch[..|batch|] == batch;
    }

    /**
     * Brings the index up to date, embedding at most `budget` rows, whatever clients do meanwhile. Alone, it visits
     * every row once, in some order.
     */
    method SweepIndex(ix: Index, budget: nat, now: nat) returns (r: Report, ghost order: seq<bytes>)
      requires Inv(ix)
      modifies this
      ensures Inv(ix)
      ensures r.embedded + r.failed <= budget
      ensures old(script) == [] ==>
                && script == [] && Distinct(order) && Elements(order) == old(rows.Keys)
                && View(r) == AloneAll(ix, old(View(Report(0, 0, 0, 0))), order, now, budget)
    {
      r, order := Report(0, 0, 0, 0), [];
      var cursor: Option<bytes> := None;
      while true
        invariant Inv(ix) && Since(old(used), old(script), old(rows.Keys))
        invariant r.embedded + r.failed <= budget
        invariant old(script) == [] ==>
                    && Visited(order, rows.Keys, cursor)
                    && View(r) == AloneAll(ix, old(View(Report(0, 0, 0, 0))), order, now, budget)
        decreases |script|, |Ahead(rows.Keys, cursor)|
      {
        Interfere(ix);
        var snap := rows;
        var batch := ScanBatch(BATCH, snap.Keys, cursor);
        if batch == [] { break; }
        BatchDistinct(BATCH, snap.Keys, cursor, batch);
        JustRead(ix, Table(rows, used), h, batch);
        CursorPasses(BATCH, snap.Keys, cursor, batch);
        r := SweepBatch(ix, batch, snap, now, budget, r);
        if old(script) == [] {
          AloneTwice(ix, old(View(Report(0, 0, 0, 0))), order, batch, now, budget);
          BatchVisited(order, cursor, snap.Keys, batch);
        }
        order := order + batch;
        cursor := Some(batch[|batch| - 1]);
        if |batch| < BATCH { break; }
      }
    }

    /**
     * Sweeps one after the other, clients working all the while. With no clients, a provider that answers and
     * clocks past every backoff window, enough sweeps leave nothing outstanding.
     */
    method Sweeps(ix: Index, budget: nat, clocks: seq<nat>)
      requires Inv(ix)
      modifies this
      ensures Inv(ix)
      ensures old(script) == [] && Succeeds(ix) && Shaped(ix, old(rows)) && budget >= 1
              && (forall n | n in clocks :: PastBackoff(old(side), n))
              && |clocks| * budget >= |Outstanding(ix, old(rows), old(side))| ==>
                Outstanding(ix, rows, side) == {}
    {
      ghost var quiet := script == [] && Succeeds(ix) && Shaped(ix, rows) && budget >= 1
                         && forall n | n in clocks :: PastBackoff(side, n);
      for i := 0 to |clocks|
        invariant Inv(ix)
        invariant quiet ==> script == [] && Converging(ix, old(rows), old(side), rows, side, clocks, i, budget)
      {
        ghost var c := View(Report(0, 0, 0, 0));
        var r;
        ghost var order;
        r, order := SweepIndex(ix, budget, clocks[i]);
        if quiet { ConvergeStep(ix, old(rows), old(side), c, order, clocks, i, budget); }
      }
    }
  }

  ghost predicate Distinct(batch: seq<bytes>) {
    forall i, j | 0 <= i < j < |batch| :: batch[i] != batch[j]
  }

  ghost function Elements(batch: seq<bytes>): set<bytes> {
    set k | k in batch
  }

  /** A snapshot of a row is good for counting its failures. */
  ghost predicate Snapped(ix: Index, t: Table, h: History, k: bytes, row: Row) {
    TextOf(ix, row).Some? ==> Fresh(ix, t, h, k, TextOf(ix, row).value)
  }

  lemma {:induction false} StaysSnapped(ix: Index, t0: Table, h0: History, t: Table, h: History, k: bytes, j: bytes,
                                        row: Row)
    requires StaysFresh(ix, t0, h0, t, h, Some(k)) && j != k && Snapped(ix, t0, h0, j, row)
    ensures Snapped(ix, t, h, j, row)
  {
  }

  /** The rows still to visit are snapped. */
  ghost predicate AllSnapped(ix: Index, t: Table, h: History, batch: seq<bytes>, i: nat, snap: map<bytes, Row>) {
    forall j | i <= j < |batch| :: batch[j] in snap && batch[j] in t.used && Snapped(ix, t, h, batch[j], snap[batch[j]])
  }

  lemma {:induction false} JustRead(ix: Index, t: Table, h: History, batch: seq<bytes>)
    requires t.rows.Keys <= t.used && forall k | k in batch :: k in t.rows
    ensures AllSnapped(ix, t, h, batch, 0, t.rows) && Unread(t.rows, t.rows, batch, 0)
  {
  }

  lemma {:induction false} StaysAllSnapped(ix: Index, t0: Table, h0: History, t: Table, h: History, batch: seq<bytes>,
                                           i: nat, snap: map<bytes, Row>)
    requires i < |batch| && Distinct(batch) && StaysFresh(ix, t0, h0, t, h, Some(batch[i])) && t0.used <= t.used
    requires AllSnapped(ix, t0, h0, batch, i, snap)
    ensures AllSnapped(ix, t, h, batch, i + 1, snap)
  {
    forall j | i < j < |batch| ensures Snapped(ix, t, h, batch[j], snap[batch[j]]) {
      StaysSnapped(ix, t0, h0, t, h, batch[i], batch[j], snap[batch[j]]);
    }
  }

  lemma {:induction false} StaysFreshTwice(ix: Index, t0: Table, h0: History, t1: Table, h1: History, t2: Table,
                                           h2: History,
                                           b1: Option<bytes>, b2: Option<bytes>)
    requires StaysFresh(ix, t0, h0, t1, h1, b1) && StaysFresh(ix, t1, h1, t2, h2, b2) && (b1 == None || b1 == b2)
    ensures StaysFresh(ix, t0, h0, t2, h2, b2)
  {
  }

  lemma {:induction false} FailedState(state: RowState, hash: u64, attempts: nat, clock: nat)
    requires Attemptable(state, hash, attempts)
    ensures Failed(state, hash, clock) == RowState(hash, attempts + 1, clock + Backoff(attempts + 1))
  {
  }

  lemma {:induction false} FailureStaysFresh(ix: Index, t: Table, h: History, k: bytes, text: bytes)
    ensures StaysFresh(ix, t, h, t, FailedHistory(ix, t, h, k, text), Some(k))
    ensures FailedHistory(ix, t, h, k, text).done == h.done && FailedHistory(ix, t, h, k, text).base == h.base
  {
  }

  lemma {:induction false} WriteStaysFresh(ix: Index, t: Table, h: History, k: bytes, text: bytes, v: seq<u32>)
    requires Sound(ix) && Writable(ix, t, k, text, v)
    ensures StaysFresh(ix, t, h, Written(ix, t, k, v), WrittenHistory(h, k, text), None)
  {
    SameText(ix, t.rows[k], Written(ix, t, k, v).rows[k]);
  }

  // ---------------------------------------------------------- the sweep, all alone

  datatype Calm = Calm(rows: map<bytes, Row>, side: map<bytes, RowState>, calls: nat, report: Report)

  /** What one provider reply leads to when no client interferes. */
  function Answered(ix: Index, c: Calm, k: bytes, text: bytes, reply: Reply): Calm
    requires k in c.rows
  {
    var hash := ix.hash(text);
    if reply.vector.None? || |reply.vector.value| != ix.dimension then
      c.(side := c.side[k := Failed(StateOf(c.side, k), hash, reply.clock)],
      report := c.report.(failed := c.report.failed + 1))
    else if reply.raced || ix.vecCol >= |c.rows[k]| then
      c.(report := c.report.(conflicted := c.report.conflicted + 1))
    else
      c.(rows := c.rows[k := c.rows[k][ix.vecCol := Vector(reply.vector.value)]],
      side := c.side[k := RowState(hash, 0, 0)], report := c.report.(embedded := c.report.embedded + 1))
  }

  lemma {:induction false} AnsweredBadly(ix: Index, c: Calm, k: bytes, text: bytes, reply: Reply, attempts: nat)
    requires k in c.rows && Attemptable(StateOf(c.side, k), ix.hash(text), attempts)
    requires reply.vector.None? || |reply.vector.value| != ix.dimension
    ensures Answered(ix, c, k, text, reply) ==
            Calm(c.rows, c.side[k := RowState(ix.hash(text), attempts + 1, reply.clock + Backoff(attempts + 1))],
                 c.calls,
                 c.report.(failed := c.report.failed + 1))
  {
  }

  lemma {:induction false} AnsweredWell(ix: Index, c: Calm, k: bytes, text: bytes, reply: Reply)
    requires k in c.rows && reply.vector.Some? && |reply.vector.value| == ix.dimension
    ensures reply.raced || ix.vecCol >= |c.rows[k]| ==>
              Answered(ix, c, k, text, reply) ==
              Calm(c.rows, c.side, c.calls, c.report.(conflicted := c.report.conflicted + 1))
    ensures !reply.raced && ix.vecCol < |c.rows[k]| ==>
              Answered(ix, c, k, text, reply) ==
              Calm(Written(ix, Table(c.rows, {}), k, reply.vector.value).rows,
                   c.side[k := RowState(ix.hash(text), 0, 0)], c.calls,
                   c.report.(embedded := c.report.embedded + 1))
  {
  }

  lemma {:induction false} AnsweredCalls(ix: Index, c: Calm, k: bytes, text: bytes, reply: Reply, n: nat)
    requires k in c.rows
    ensures Answered(ix, c.(calls := n), k, text, reply) == Answered(ix, c, k, text, reply).(calls := n)
  {
  }

  /** One row visited when no client interferes. */
  function Alone(ix: Index, c: Calm, k: bytes, now: nat, budget: nat): Calm {
    if k !in c.rows || TextOf(ix, c.rows[k]).None? then c
    else
      var text := TextOf(ix, c.rows[k]).value;
      var state := StateOf(c.side, k);
      if UpToDate(state, ix.hash(text)) then c
      else if Waiting(state, ix.hash(text), now) || c.report.embedded + c.report.failed >= budget then
        c.(report := c.report.(deferred := c.report.deferred + 1))
      else Answered(ix, c, k, text, ix.embed(c.calls, text)).(calls := c.calls + 1)
  }

  function AloneAll(ix: Index, c: Calm, order: seq<bytes>, now: nat, budget: nat): Calm {
    if order == [] then c
    else Alone(ix, AloneAll(ix, c, order[..|order| - 1], now, budget), order[|order| - 1], now, budget)
  }

  /** The rows still to visit are as the batch read them. */
  ghost predicate Unread(rows: map<bytes, Row>, snap: map<bytes, Row>, batch: seq<bytes>, i: nat) {
    forall j | i <= j < |batch| :: batch[j] in rows && batch[j] in snap && rows[batch[j]] == snap[batch[j]]
  }

  lemma {:induction false} AloneNext(ix: Index, c: Calm, c0: Calm, batch: seq<bytes>, i: nat, snap: map<bytes, Row>,
                                     now: nat, budget: nat)
    requires i < |batch| && Distinct(batch) && Unread(c0.rows, snap, batch, i)
    requires c0 == AloneAll(ix, c, batch[..i], now, budget)
    ensures Alone(ix, c0, batch[i], now, budget) == AloneAll(ix, c, batch[..i + 1], now, budget)
    ensures Unread(Alone(ix, c0, batch[i], now, budget).rows, snap, batch, i + 1)
  {
    assert batch[..i + 1][..i] == batch[..i];
  }

  lemma {:induction false} AloneTwice(ix: Index, c: Calm, a: seq<bytes>, b: seq<bytes>, now: nat, budget: nat)
    ensures AloneAll(ix, AloneAll(ix, c, a, now, budget), b, now, budget) == AloneAll(ix, c, a + b, now, budget)
  {
    if b == [] {
      assert a + b == a;
    } else {
      AloneTwice(ix, c, a, b[..|b| - 1], now, budget);
      assert (a + b)[..|a + b| - 1] == a + b[..|b| - 1];
    }
  }

  /** Exactly the keys the cursor passed have been visited, once each. */
  ghost predicate Visited(order: seq<bytes>, keys: set<bytes>, cursor: Option<bytes>) {
    Distinct(order) && forall k :: k in order <==> k in keys && !After(cursor, k)
  }

  lemma {:induction false} BatchVisited(order: seq<bytes>, cursor: Option<bytes>, keys: set<bytes>, batch: seq<bytes>)
    requires Visited(order, keys, cursor) && IsBatch(BATCH, keys, cursor, batch) && batch != []
    ensures Visited(order + batch, keys, Some(batch[|batch| - 1]))
    ensures |batch| < BATCH ==> Elements(order + batch) == keys
  {
    var end := batch[|batch| - 1];
    BatchDistinct(BATCH, keys, cursor, batch);
    assert Distinct(order + batch) by {
      forall i, j | 0 <= i < j < |order + batch| ensures (order + batch)[i] != (order + batch)[j] {
        if i < |order| <= j {
          assert (order + batch)[i] in order && (order + batch)[j] in batch;
        }
      }
    }
    forall k ensures k in order + batch <==> k in keys && !After(Some(end), k) {
      if k in keys {
        BatchPasses(cursor, keys, batch, k);
      }
    }
  }

  lemma {:induction false} BatchPasses(cursor: Option<bytes>, keys: set<bytes>, batch: seq<bytes>, k: bytes)
    requires IsBatch(BATCH, keys, cursor, batch) && batch != [] && k in keys
    ensures !After(cursor, k) || k in batch <==> !After(Some(batch[|batch| - 1]), k)
  {
    var end := batch[|batch| - 1];
    assert end in batch;
    LessTotal(k, end);
    if AtMost(k, end) {
      BatchCovers(BATCH, keys, cursor, batch, k);
      if k != end { LessAsymmetric(k, end); } else { LessIrreflexive(k); }
    } else {
      if cursor.Some? { LessTransitive(cursor.value, end, k); }
      forall i | 0 <= i < |batch| ensures batch[i] != k {
        if i < |batch| - 1 {
          LessTransitive(batch[i], end, k);
        }
        LessIrreflexive(k);
      }
    }
  }

  // ------------------------------------------------------------------- convergence

  /** Row `k` now holds some vector and its sidecar says so; nothing else changed. */
  ghost predicate Embedded(ix: Index, t0: Table, side0: map<bytes, RowState>, t: Table, side: map<bytes, RowState>,
                           k: bytes, text: bytes) {
    && k in t0.rows && ix.vecCol < |t0.rows[k]|
    && side == side0[k := RowState(ix.hash(text), 0, 0)]
    && exists v :: t == Written(ix, t0, k, v)
  }

  /** With no clients and a provider that answers: a due row is embedded while the budget lasts. */
  ghost predicate QuietVisit(ix: Index, t0: Table, side0: map<bytes, RowState>, t: Table, side: map<bytes, RowState>,
                             k: bytes, now: nat,
                             budget: nat, report: Report, r: Report)
    requires k in t0.rows
  {
    if DueRow(ix, t0.rows[k], StateOf(side0, k), now) && report.embedded + report.failed < budget then
      && r == report.(embedded := report.embedded + 1)
      && Embedded(ix, t0, side0, t, side, k, TextOf(ix, t0.rows[k]).value)
    else
      t == t0 && side == side0 && r.(deferred := 0) == report.(deferred := 0)
  }

  /** Where a quiet sweep started, the rows it has visited and those it has embedded. */
  datatype Quiet = Quiet(rows0: map<bytes, Row>, side0: map<bytes, RowState>, done: set<bytes>, touched: set<bytes>)

  ghost predicate QuietState(ix: Index, q: Quiet, rows: map<bytes, Row>, side: map<bytes, RowState>, now: nat,
                             budget: nat, r: Report) {
    && Shaped(ix, rows)
    && Refreshed(ix, q.rows0, q.side0, rows, side, q.touched)
    && q.touched <= q.done && q.touched <= Due(ix, q.rows0, q.side0, now)
    && |q.touched| == r.embedded <= budget && r.failed == 0 && r.conflicted == 0
    && Covered(ix, q, now, budget, r)
  }

  /** Unless the budget ran out, every due row visited was embedded. */
  ghost predicate Covered(ix: Index, q: Quiet, now: nat, budget: nat, r: Report) {
    r.embedded < budget ==> q.done * Due(ix, q.rows0, q.side0, now) <= q.touched
  }

  lemma {:induction false} DueStays(ix: Index, q: Quiet, rows: map<bytes, Row>, side: map<bytes, RowState>, now: nat,
                                    k: bytes)
    requires Refreshed(ix, q.rows0, q.side0, rows, side, q.touched) && k in rows && k !in q.touched
    ensures k in Due(ix, q.rows0, q.side0, now) <==> DueRow(ix, rows[k], StateOf(side, k), now)
  {
  }

  lemma {:induction false} QuietWrite(ix: Index, q: Quiet, t: Table, side: map<bytes, RowState>, t': Table,
                                      side': map<bytes, RowState>,
                                      now: nat, budget: nat, r: Report, k: bytes, text: bytes)
    requires Sound(ix) && QuietState(ix, q, t.rows, side, now, budget, r) && k in t.rows && k !in q.done
    requires k in Due(ix, q.rows0, q.side0, now) && r.embedded < budget && TextOf(ix, t.rows[k]) == Some(text)
    requires Embedded(ix, t, side, t', side', k, text)
    ensures QuietState(ix, q.(done := q.done + {k}, touched := q.touched + {k}), t'.rows, side', now, budget,
                       r.(embedded := r.embedded + 1))
  {
    var v :| t' == Written(ix, t, k, v);
    RefreshOne(ix, q.rows0, q.side0, t, side, q.touched, k, text, v);
  }

  /** One more row of a quiet sweep. */
  lemma {:induction false} QuietOne(ix: Index, q: Quiet, t: Table, side: map<bytes, RowState>, t': Table,
                                    side': map<bytes, RowState>,
                                    now: nat, budget: nat, r: Report, r': Report, k: bytes) returns (q': Quiet)
    requires Sound(ix) && QuietState(ix, q, t.rows, side, now, budget, r) && k in t.rows && k !in q.done
    requires QuietVisit(ix, t, side, t', side', k, now, budget, r, r')
    ensures QuietState(ix, q', t'.rows, side', now, budget, r')
    ensures q'.rows0 == q.rows0 && q'.side0 == q.side0 && q'.done == q.done + {k}
    ensures forall j | j in t.rows && j != k :: j in t'.rows && t'.rows[j] == t.rows[j]
  {
    DueStays(ix, q, t.rows, side, now, k);
    if DueRow(ix, t.rows[k], StateOf(side, k), now) && r.embedded + r.failed < budget {
      q' := q.(done := q.done + {k}, touched := q.touched + {k});
      QuietWrite(ix, q, t, side, t', side', now, budget, r, k, TextOf(ix, t.rows[k]).value);
    } else {
      q' := q.(done := q.done + {k});
    }
  }

  /** Alone with a provider that answers, a visit is quiet. */
  lemma {:induction false} AloneIsQuiet(ix: Index, c: Calm, k: bytes, now: nat, budget: nat)
    requires Succeeds(ix) && k in c.rows && ix.vecCol < |c.rows[k]|
    ensures
      var c' := Alone(ix, c, k, now, budget);
      QuietVisit(ix, Table(c.rows, {}), c.side, Table(c'.rows, {}), c'.side, k, now, budget, c.report, c'.report)
  {
    if DueRow(ix, c.rows[k], StateOf(c.side, k), now) && c.report.embedded + c.report.failed < budget {
      var v := ix.embed(c.calls, TextOf(ix, c.rows[k]).value).vector.value;
      assert Table(Alone(ix, c, k, now, budget).rows, {}) == Written(ix, Table(c.rows, {}), k, v);
    }
  }

  lemma {:induction false} LastElement(order: seq<bytes>)
    requires order != [] && Distinct(order)
    ensures
      var rest, k := order[..|order| - 1], order[|order| - 1];
      Elements(order) == Elements(rest) + {k} && k !in Elements(rest) && Distinct(rest)
  {
    assert order == order[..|order| - 1] + [order[|order| - 1]];
  }

  lemma {:induction false} AloneRun(ix: Index, c: Calm, order: seq<bytes>, now: nat, budget: nat) returns (q: Quiet)
    requires Sound(ix) && Succeeds(ix) && Shaped(ix, c.rows) && c.report == Report(0, 0, 0, 0)
    requires Distinct(order) && forall k | k in order :: k in c.rows
    ensures
      var c' := AloneAll(ix, c, order, now, budget);
      QuietState(ix, q, c'.rows, c'.side, now, budget, c'.report)
    ensures q.rows0 == c.rows && q.side0 == c.side && q.done == Elements(order)
  {
    if order == [] {
      q := Quiet(c.rows, c.side, {}, {});
    } else {
      var rest, k := order[..|order| - 1], order[|order| - 1];
      q := AloneRun(ix, c, rest, now, budget);
      var d := AloneAll(ix, c, rest, now, budget);
      var d' := Alone(ix, d, k, now, budget);
      AloneIsQuiet(ix, d, k, now, budget);
      q := QuietOne(ix, q, Table(d.rows, {}), d.side, Table(d'.rows, {}), d'.side, now, budget, d.report, d'.report, k);
      LastElement(order);
    }
  }

  /** What a quiet sweep does: it embeds `touched`, which is all due rows or as many as the budget allows. */
  ghost predicate QuietSweep(ix: Index, c: Calm, c': Calm, now: nat, budget: nat, touched: set<bytes>) {
    && Shaped(ix, c'.rows)
    && Refreshed(ix, c.rows, c.side, c'.rows, c'.side, touched)
    && touched <= Due(ix, c.rows, c.side, now)
    && |touched| == c'.report.embedded <= budget && c'.report.failed == 0 && c'.report.conflicted == 0
    && (c'.report.embedded < budget ==> touched == Due(ix, c.rows, c.side, now))
  }

  lemma {:induction false} SweepIsQuiet(ix: Index, c: Calm, order: seq<bytes>, now: nat, budget: nat)
    returns (touched: set<bytes>)
    requires Sound(ix) && Succeeds(ix) && Shaped(ix, c.rows) && c.report == Report(0, 0, 0, 0)
    requires Distinct(order) && Elements(order) == c.rows.Keys
    ensures QuietSweep(ix, c, AloneAll(ix, c, order, now, budget), now, budget, touched)
  {
    forall k | k in order ensures k in c.rows { assert k in Elements(order); }
    var q := AloneRun(ix, c, order, now, budget);
    touched := q.touched;
    assert Due(ix, c.rows, c.side, now) <= q.done;
  }

  /** Rows with text whose vector is not current and which the provider has not refused for good. */
  ghost predicate OutstandingRow(ix: Index, row: Row, state: RowState) {
    var text := TextOf(ix, row);
    text.Some? && !UpToDate(state, ix.hash(text.value))
    && !(state.hash == ix.hash(text.value) && state.attempts >= MAX_ATTEMPTS)
  }

  ghost function Outstanding(ix: Index, rows: map<bytes, Row>, side: map<bytes, RowState>): set<bytes> {
    set k | k in rows && OutstandingRow(ix, rows[k], StateOf(side, k))
  }

  ghost predicate PastBackoff(side: map<bytes, RowState>, now: nat) {
    forall k | k in side :: side[k].nextAttempt <= now
  }

  /** Past every backoff window, what is outstanding is due. */
  lemma {:induction false} OutstandingIsDue(ix: Index, rows: map<bytes, Row>, side: map<bytes, RowState>, now: nat)
    ensures Due(ix, rows, side, now) <= Outstanding(ix, rows, side)
    ensures PastBackoff(side, now) ==> Due(ix, rows, side, now) == Outstanding(ix, rows, side)
  {
  }

  lemma {:induction false} RefreshedOutstanding(ix: Index, rows0: map<bytes, Row>, side0: map<bytes, RowState>,
                                                rows: map<bytes, Row>,
                                                side: map<bytes, RowState>, touched: set<bytes>)
    requires Sound(ix) && Refreshed(ix, rows0, side0, rows, side, touched)
    ensures Outstanding(ix, rows, side) == Outstanding(ix, rows0, side0) - touched
  {
    forall k | k in rows ensures k in Outstanding(ix, rows, side) <==> k in Outstanding(ix, rows0, side0) - touched {
      SameText(ix, rows[k], rows0[k]);
    }
  }

  lemma {:induction false} RefreshedBackoff(ix: Index, rows0: map<bytes, Row>, side0: map<bytes, RowState>,
                                            side: map<bytes, RowState>, touched: set<bytes>,
                                            now: nat)
    requires RefreshedSide(ix, rows0, side0, side, touched) && PastBackoff(side0, now)
    ensures PastBackoff(side, now)
  {
    forall k | k in side ensures side[k].nextAttempt <= now {
      assert k in touched ==> Current(ix, rows0[k], StateOf(side, k));
    }
  }

  /** Each quiet sweep takes what it embedded off the outstanding rows: one per unit of budget while any is due. */
  lemma {:induction false} SweepProgress(ix: Index, c: Calm, order: seq<bytes>, now: nat, budget: nat)
    requires Sound(ix) && Succeeds(ix) && Shaped(ix, c.rows) && c.report == Report(0, 0, 0, 0)
    requires Distinct(order) && Elements(order) == c.rows.Keys
    ensures
      var c' := AloneAll(ix, c, order, now, budget);
      var due := |Due(ix, c.rows, c.side, now)|;
      && Shaped(ix, c'.rows)
      && c'.report.embedded == (if due <= budget then due else budget)
      && |Outstanding(ix, c'.rows, c'.side)| == |Outstanding(ix, c.rows, c.side)| - c'.report.embedded
      && (forall n | PastBackoff(c.side, n) :: PastBackoff(c'.side, n))
  {
    SweepCounts(ix, c, order, now, budget);
    forall n | PastBackoff(c.side, n) ensures PastBackoff(AloneAll(ix, c, order, now, budget).side, n) {
      SweepBackoff(ix, c, order, now, budget, n);
    }
  }

  lemma {:induction false} SweepCounts(ix: Index, c: Calm, order: seq<bytes>, now: nat, budget: nat)
    requires Sound(ix) && Succeeds(ix) && Shaped(ix, c.rows) && c.report == Report(0, 0, 0, 0)
    requires Distinct(order) && Elements(order) == c.rows.Keys
    ensures
      var c' := AloneAll(ix, c, order, now, budget);
      var due := |Due(ix, c.rows, c.side, now)|;
      && Shaped(ix, c'.rows)
      && c'.report.embedded == (if due <= budget then due else budget)
      && |Outstanding(ix, c'.rows, c'.side)| == |Outstanding(ix, c.rows, c.side)| - c'.report.embedded
  {
    var c' := AloneAll(ix, c, order, now, budget);
    var touched := SweepIsQuiet(ix, c, order, now, budget);
    RefreshedOutstanding(ix, c.rows, c.side, c'.rows, c'.side, touched);
    OutstandingIsDue(ix, c.rows, c.side, now);
    Subset(touched, Due(ix, c.rows, c.side, now));
  }

  lemma {:induction false} SweepBackoff(ix: Index, c: Calm, order: seq<bytes>, now: nat, budget: nat, n: nat)
    requires Sound(ix) && Succeeds(ix) && Shaped(ix, c.rows) && c.report == Report(0, 0, 0, 0)
    requires Distinct(order) && Elements(order) == c.rows.Keys && PastBackoff(c.side, n)
    ensures PastBackoff(AloneAll(ix, c, order, now, budget).side, n)
  {
    var touched := SweepIsQuiet(ix, c, order, now, budget);
    RefreshedBackoff(ix, c.rows, c.side, AloneAll(ix, c, order, now, budget).side, touched, n);
  }

  /** After `i` sweeps, `i` budgets' worth of rows are done, or all of them. */
  ghost predicate Converging(ix: Index, rows0: map<bytes, Row>, side0: map<bytes, RowState>, rows: map<bytes, Row>,
                             side: map<bytes, RowState>,
                             clocks: seq<nat>, i: nat, budget: nat) {
    && Shaped(ix, rows)
    && (forall n | n in clocks :: PastBackoff(side, n))
    && (Outstanding(ix, rows, side) == {}
        || |Outstanding(ix, rows, side)| + i * budget <= |Outstanding(ix, rows0, side0)|)
  }

  lemma {:induction false} ConvergeStep(ix: Index, rows0: map<bytes, Row>, side0: map<bytes, RowState>, c: Calm,
                                        order: seq<bytes>,
                                        clocks: seq<nat>, i: nat, budget: nat)
    requires Sound(ix) && Succeeds(ix) && c.report == Report(0, 0, 0, 0) && i < |clocks|
    requires Distinct(order) && Elements(order) == c.rows.Keys
    requires Converging(ix, rows0, side0, c.rows, c.side, clocks, i, budget)
    ensures
      var c' := AloneAll(ix, c, order, clocks[i], budget);
      Converging(ix, rows0, side0, c'.rows, c'.side, clocks, i + 1, budget)
  {
    SweepProgress(ix, c, order, clocks[i], budget);
    OutstandingIsDue(ix, c.rows, c.side, clocks[i]);
    assert (i + 1) * budget == i * budget + budget;
  }

  /** A row that is taken for embedded is passed over, whatever the clock and the budget. */
  lemma {:induction false} PassedOver(ix: Index, c: Calm, k: bytes, now: nat, budget: nat)
    requires k in c.rows && TextOf(ix, c.rows[k]).Some?
    requires UpToDate(StateOf(c.side, k), ix.hash(TextOf(ix, c.rows[k]).value))
    ensures Alone(ix, c, k, now, budget) == c
  {
  }

  /** An edit to a text of the same hash goes unseen: the row is passed over, its vector made from the old text. */
  lemma {:induction false} CollisionUnseen(ix: Index, w: World, k: bytes, row: Row, c: Calm, now: nat, budget: nat)
    requires Sound(ix) && Reachable(ix, w) && k in w.t.rows && k in w.side && k !in w.h.unsure
    requires |row| == |w.t.rows[k]| && (ix.vecCol < |row| ==> row[ix.vecCol] == w.t.rows[k][ix.vecCol])
    requires TextOf(ix, w.t.rows[k]).Some? && TextOf(ix, row).Some?
    requires ix.hash(TextOf(ix, row).value) == ix.hash(TextOf(ix, w.t.rows[k]).value)
    requires UpToDate(w.side[k], ix.hash(TextOf(ix, w.t.rows[k]).value))
    requires
      var w' := Next(ix, w, Client(Edit(k, row)));
      c.rows == w'.t.rows && c.side == w'.side
    ensures Alone(ix, c, k, now, budget) == c && k in w.h.origin && Embeds(ix, row, w.h.origin[k])
    ensures TrueAt(ix, c.rows, c.side, k) <==> Answers(ix, TextOf(ix, row).value, row[ix.vecCol].floats)
  {
    ReachableConsistent(ix, w);
    SidecarTruth(ix, w.t, w.side, w.h, k, TextOf(ix, w.t.rows[k]).value);
    assert c.rows[k] == row;
    PassedOver(ix, c, k, now, budget);
  }

  /** A row inserted with a text of hash 0 under a new key is passed over, vector or none. */
  lemma {:induction false} ZeroHashUnseen(ix: Index, w: World, k: bytes, row: Row, c: Calm, now: nat, budget: nat)
    requires Sound(ix) && Reachable(ix, w) && k !in w.t.used
    requires TextOf(ix, row).Some? && ix.hash(TextOf(ix, row).value) == 0
    requires
      var w' := Next(ix, w, Client(Insert(k, row)));
      c.rows == w'.t.rows && c.side == w'.side
    ensures k !in Next(ix, w, Client(Insert(k, row))).h.unsure && Alone(ix, c, k, now, budget) == c
    ensures TrueAt(ix, c.rows, c.side, k) <==> Embeds(ix, row, TextOf(ix, row).value)
  {
    ReachableConsistent(ix, w);
    assert c.rows[k] == row && k !in c.side;
    PassedOver(ix, c, k, now, budget);
  }

  /** A row embedded, deleted and inserted again with its old text and no vector is taken for embedded. */
  lemma {:induction false} ReusedKeyStale(ix: Index, w: World, k: bytes, c: Calm, now: nat, budget: nat)
    requires Sound(ix) && k in w.t.rows && ix.vecCol < |w.t.rows[k]|
    requires TextOf(ix, w.t.rows[k]).Some? && UpToDate(StateOf(w.side, k), ix.hash(TextOf(ix, w.t.rows[k]).value))
    requires
      var w' := Next(ix, Next(ix, w, Client(Delete(k))), Client(Insert(k, w.t.rows[k][ix.vecCol := Null])));
      c.rows == w'.t.rows && c.side == w'.side
    ensures Alone(ix, c, k, now, budget) == c && !TrueAt(ix, c.rows, c.side, k)
  {
    var again := w.t.rows[k][ix.vecCol := Null];
    assert c.rows[k] == again;
    assert TextOf(ix, again) == TextOf(ix, w.t.rows[k]);
    PassedOver(ix, c, k, now, budget);
  }

  /** With nothing outstanding a sweep changes nothing and calls no one, whatever the clock and the provider. */
  lemma {:induction false} NothingOutstanding(ix: Index, c: Calm, order: seq<bytes>, now: nat, budget: nat)
    requires Outstanding(ix, c.rows, c.side) == {}
    ensures
      var c' := AloneAll(ix, c, order, now, budget);
      c'.rows == c.rows && c'.side == c.side && c'.calls == c.calls && c'.report.embedded == c.report.embedded
  {
    if order != [] {
      var rest, k := order[..|order| - 1], order[|order| - 1];
      NothingOutstanding(ix, c, rest, now, budget);
      assert k in c.rows ==> k !in Outstanding(ix, c.rows, c.side);
    }
  }
}
