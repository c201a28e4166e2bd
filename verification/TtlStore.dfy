/**
  The in-memory key-value store of the user service: a map of values, a map of hash buckets and a
  map of pending expiry timers, with hand-written expiry.

  `Store` is the state of the three static maps together with the part of the runtime they rely
  on: the timeouts that are scheduled and neither cancelled nor fired yet, and the clock.
  The functions are the specification; `KeyValueStore` is the imperative form.
 */
module TtlStore {
  import opened Common

  type Key = string
  type TimerId = nat

  datatype FieldName = OtpHash | ExpiresAt | Attempts | MaxAttempts | LastSentAt

  /** What a bucket field can hold. A bcrypt hash is kept abstract, as the password and the salt it commits to. */
  datatype Field = Num(n: int) | NotANumber | Hash(secret: string, salt: nat)

  type Bucket = map<FieldName, Field>

  /** The two timeout callbacks: `storeSetEx` schedules `DropValue`, `storeExpire` schedules `DropAll`. */
  datatype Callback = DropValue | DropAll

  datatype Timeout = Timeout(key: Key, callback: Callback, due: int)

  datatype Store = Store(
    values: map<Key, string>,
    hashes: map<Key, Bucket>,
    timers: map<Key, TimerId>,
    pending: map<TimerId, Timeout>,
    nextTimer: TimerId,
    now: int)

  /** Node schedules a delay outside 1..2^31-1 ms after one millisecond. */
  function Delay(ttlSeconds: int): int {
    var ms := ttlSeconds * 1000;
    if 1 <= ms <= 0x7FFF_FFFF then ms else 1
  }

  // ---------- Operations ----------

  function ClearExistingTimer(s: Store, key: Key): Store {
    if key in s.timers
    then s.(pending := s.pending - {s.timers[key]}, timers := s.timers - {key})
    else s
  }

  function Schedule(s: Store, key: Key, callback: Callback, ttlSeconds: int): Store {
    s.(pending := s.pending[s.nextTimer := Timeout(key, callback, s.now + Delay(ttlSeconds))],
       timers := s.timers[key := s.nextTimer],
       nextTimer := s.nextTimer + 1)
  }

  function SetEx(s: Store, key: Key, ttlSeconds: int, value: string): Store {
    Schedule(ClearExistingTimer(s.(values := s.values[key := value]), key), key, DropValue, ttlSeconds)
  }

  function Get(s: Store, key: Key): Option<string> {
    if key in s.values then Some(s.values[key]) else None
  }

  function Del(s: Store, key: Key): Store {
    ClearExistingTimer(s.(values := s.values - {key}, hashes := s.hashes - {key}), key)
  }

  function HGetAll(s: Store, key: Key): Bucket {
    if key in s.hashes then s.hashes[key] else map[]
  }

  function HSet(s: Store, key: Key, entries: Bucket): Store {
    s.(hashes := s.hashes[key := HGetAll(s, key) + entries])
  }

  function Incremented(b: Bucket, field: FieldName, increment: int): Field {
    if field !in b then Num(increment)
    else match b[field]
      case Num(n) => Num(n + increment)
      case _ => NotANumber
  }

  function HIncrBy(s: Store, key: Key, field: FieldName, increment: int): Store {
    var b := HGetAll(s, key);
    s.(hashes := s.hashes[key := b[field := Incremented(b, field, increment)]])
  }

  function Expire(s: Store, key: Key, ttlSeconds: int): Store {
    Schedule(ClearExistingTimer(s, key), key, DropAll, ttlSeconds)
  }

  predicate Due(s: Store, id: TimerId) {
    id in s.pending && s.pending[id].due <= s.now
  }

  /** The runtime runs the callback of a timeout that is due. */
  function Fire(s: Store, id: TimerId): Store
    requires Due(s, id)
  {
    var t := s.pending[id];
    s.(pending := s.pending - {id},
       values := s.values - {t.key},
       hashes := if t.callback == DropAll then s.hashes - {t.key} else s.hashes,
       timers := s.timers - {t.key})
  }

  // ---------- Runs ----------

  datatype Op =
    | OpSetEx(key: Key, ttlSeconds: int, value: string)
    | OpDel(key: Key)
    | OpExpire(key: Key, ttlSeconds: int)
    | OpHSet(key: Key, entries: Bucket)
    | OpHIncrBy(key: Key, field: FieldName, increment: int)
    | OpFire(id: TimerId)
    | OpTick(ms: nat)

  /** One step; a timeout that is not due does not fire. */
  function Apply(s: Store, op: Op): Store {
    match op
    case OpSetEx(k, ttl, v) => SetEx(s, k, ttl, v)
    case OpDel(k) => Del(s, k)
    case OpExpire(k, ttl) => Expire(s, k, ttl)
    case OpHSet(k, e) => HSet(s, k, e)
    case OpHIncrBy(k, f, i) => HIncrBy(s, k, f, i)
    case OpFire(id) => if Due(s, id) then Fire(s, id) else s
    case OpTick(ms) => s.(now := s.now + ms)
  }

  function Run(s: Store, ops: seq<Op>): Store
    decreases |ops|
  {
    if ops == [] then s else Run(Apply(s, ops[0]), ops[1..])
  }

  function Empty(now: int): Store {
    Store(map[], map[], map[], map[], 0, now)
  }

  // ---------- The timers map holds exactly the live timeouts ----------

  type Timers = map<Key, TimerId>
  type Pending = map<TimerId, Timeout>

  ghost predicate TimersExact(timers: Timers, pending: Pending, nextTimer: TimerId) {
    && (forall k <- timers :: timers[k] in pending && pending[timers[k]].key == k)
    && (forall id <- pending :: pending[id].key in timers && timers[pending[id].key] == id)
    && (forall id <- pending :: id < nextTimer)
  }

  ghost predicate Inv(s: Store) {
    && TimersExact(s.timers, s.pending, s.nextTimer)
    && forall k <- s.values :: k in s.timers
  }

  lemma {:induction false} RunKeepsInv(s: Store, ops: seq<Op>)
    requires Inv(s)
    ensures Inv(Run(s, ops))
    decreases |ops|
  {
    if ops != [] {
      ApplyRefines(s, ops[0]);
      RunKeepsInv(Apply(s, ops[0]), ops[1..]);
    }
  }

  /** Over every run from the empty store the timers map and the live timeouts are the same thing, one for each key. */
  lemma OneLiveTimeoutPerKey(now: int, ops: seq<Op>, id: TimerId, key: Key)
    ensures var s := Run(Empty(now), ops);
            && ((key in s.timers && s.timers[key] == id) <==> (id in s.pending && s.pending[id].key == key))
            && (key in s.values ==> key in s.timers)
  {
    RunKeepsInv(Empty(now), ops);
  }

  // ---------- Refinement of key -> (value, deadline) ----------

  datatype Entry = Entry(value: string, deadline: int)

  type Cache = map<Key, Entry>

  /** The plain map the store stands for. */
  ghost function Abs(s: Store): Cache {
    Entries(s.values, s.timers, s.pending)
  }

  ghost function Entries(values: map<Key, string>, timers: Timers, pending: Pending): Cache {
    map k | k in values && k in timers && timers[k] in pending :: Entry(values[k], pending[timers[k]].due)
  }

  /** A step of the plain map. Only an entry whose deadline has passed may be evicted. */
  ghost predicate CacheStep(c: Cache, now: int, op: Op, c': Cache) {
    match op
    case OpSetEx(k, ttl, v) => c' == c[k := Entry(v, now + Delay(ttl))]
    case OpDel(k) => c' == c - {k}
    case OpExpire(k, ttl) => c' == if k in c then c[k := Entry(c[k].value, now + Delay(ttl))] else c
    case OpFire(_) => c' == c || exists k :: k in c && c[k].deadline <= now && c' == c - {k}
    case _ => c' == c
  }

  /** The pending timeouts without the one of the key. */
  function Cancelled(timers: Timers, pending: Pending, k: Key): Pending {
    if k in timers then pending - {timers[k]} else pending
  }

  lemma ReplaceKeepsExact(timers: Timers, pending: Pending, nextTimer: TimerId, t: Timeout)
    requires TimersExact(timers, pending, nextTimer)
    ensures TimersExact(timers[t.key := nextTimer], Cancelled(timers, pending, t.key)[nextTimer := t], nextTimer + 1)
  {
    var timers', pending' := timers[t.key := nextTimer], Cancelled(timers, pending, t.key)[nextTimer := t];
    forall x <- timers' ensures timers'[x] in pending' && pending'[timers'[x]].key == x {
      if x != t.key { assert x in timers - {t.key}; }
    }
    forall id <- pending' ensures pending'[id].key in timers' && timers'[pending'[id].key] == id {
      if id != nextTimer { assert id in Cancelled(timers, pending, t.key); }
    }
  }

  /** The other keys keep their timeouts. */
  ghost predicate Others(timers: Timers, pending: Pending, pending': Pending, k: Key) {
    forall x <- timers | x != k ::
      timers[x] in pending && timers[x] in pending' && pending'[timers[x]] == pending[timers[x]]
  }

  lemma OthersAfterReplace(timers: Timers, pending: Pending, nextTimer: TimerId, t: Timeout)
    requires TimersExact(timers, pending, nextTimer)
    ensures Others(timers, pending, Cancelled(timers, pending, t.key)[nextTimer := t], t.key)
  {
    var pending' := Cancelled(timers, pending, t.key)[nextTimer := t];
    forall x <- timers | x != t.key ensures timers[x] in pending' && pending'[timers[x]] == pending[timers[x]] {
      assert pending[timers[x]].key == x;
    }
  }

  /** Replacing the timeout of a key moves its deadline, if it has a value, and no other. */
  lemma EntriesAfterReplace(values: map<Key, string>, timers: Timers, pending: Pending, pending': Pending, k: Key,
                            id: TimerId)
    requires Others(timers, pending, pending', k) && id in pending'
    requires k in values ==> k in timers && timers[k] in pending
    ensures Entries(values, timers[k := id], pending') ==
              if k in values then Entries(values, timers, pending)[k := Entry(values[k], pending'[id].due)]
              else Entries(values, timers, pending)
  {
  }

  /** Overwriting a value before that. */
  lemma EntriesAfterPut(values: map<Key, string>, timers: Timers, pending: Pending, pending': Pending, k: Key,
                        v: string, id: TimerId)
    requires Others(timers, pending, pending', k) && id in pending'
    ensures Entries(values[k := v], timers[k := id], pending') ==
        Entries(values, timers, pending)[k := Entry(v, pending'[id].due)]
  {
  }

  lemma EntriesAfterCancel(values: map<Key, string>, timers: Timers, pending: Pending, nextTimer: TimerId, k: Key)
    requires TimersExact(timers, pending, nextTimer)
    ensures Entries(values - {k}, timers - {k}, Cancelled(timers, pending, k)) == Entries(values, timers, pending) - {k}
  {
    forall x <- timers | x != k ensures timers[x] in Cancelled(timers, pending, k) {
      assert pending[timers[x]].key == x;
    }
  }

  /** What the functions on the store do to its parts. */
  lemma RescheduleIs(s: Store, k: Key, callback: Callback, ttl: int)
    ensures Schedule(ClearExistingTimer(s, k), k, callback, ttl) ==
            s.(timers := s.timers[k := s.nextTimer],
               pending := Cancelled(s.timers, s.pending, k)[s.nextTimer := Timeout(k, callback, s.now + Delay(ttl))],
               nextTimer := s.nextTimer + 1)
  {
    assert (s.timers - {k})[k := s.nextTimer] == s.timers[k := s.nextTimer];
  }

  lemma SetExIs(s: Store, k: Key, ttl: int, v: string)
    ensures SetEx(s, k, ttl, v) ==
            s.(values := s.values[k := v], timers := s.timers[k := s.nextTimer],
               pending := Cancelled(s.timers, s.pending, k)[s.nextTimer := Timeout(k, DropValue, s.now + Delay(ttl))],
               nextTimer := s.nextTimer + 1)
  {
    RescheduleIs(s.(values := s.values[k := v]), k, DropValue, ttl);
  }

  lemma AbsSetEx(s: Store, k: Key, ttl: int, v: string)
    requires Inv(s)
    ensures Inv(SetEx(s, k, ttl, v))
    ensures Abs(SetEx(s, k, ttl, v)) == Abs(s)[k := Entry(v, s.now + Delay(ttl))]
  {
    var t := Timeout(k, DropValue, s.now + Delay(ttl));
    SetExIs(s, k, ttl, v);
    ReplaceKeepsExact(s.timers, s.pending, s.nextTimer, t);
    OthersAfterReplace(s.timers, s.pending, s.nextTimer, t);
    EntriesAfterPut(s.values, s.timers, s.pending, SetEx(s, k, ttl, v).pending, k, v, s.nextTimer);
  }

  lemma AbsExpire(s: Store, k: Key, ttl: int)
    requires Inv(s)
    ensures Inv(Expire(s, k, ttl))
    ensures Abs(Expire(s, k, ttl)) ==
        if k in s.values then Abs(s)[k := Entry(s.values[k], s.now + Delay(ttl))] else Abs(s)
  {
    var t := Timeout(k, DropAll, s.now + Delay(ttl));
    RescheduleIs(s, k, DropAll, ttl);
    ReplaceKeepsExact(s.timers, s.pending, s.nextTimer, t);
    OthersAfterReplace(s.timers, s.pending, s.nextTimer, t);
    EntriesAfterReplace(s.values, s.timers, s.pending, Expire(s, k, ttl).pending, k, s.nextTimer);
  }

  lemma AbsDel(s: Store, k: Key)
    requires Inv(s)
    ensures Inv(Del(s, k))
    ensures Abs(Del(s, k)) == Abs(s) - {k}
  {
    EntriesAfterCancel(s.values, s.timers, s.pending, s.nextTimer, k);
  }

  lemma AbsFire(s: Store, id: TimerId)
    requires Inv(s) && Due(s, id)
    ensures Inv(Fire(s, id))
    ensures Abs(Fire(s, id)) == Abs(s) - {s.pending[id].key}
    ensures s.pending[id].key in Abs(s) ==> Abs(s)[s.pending[id].key].deadline <= s.now
  {
    var k := s.pending[id].key;
    assert Cancelled(s.timers, s.pending, k) == s.pending - {id};
    EntriesAfterCancel(s.values, s.timers, s.pending, s.nextTimer, k);
  }

  lemma FireEvicts(s: Store, id: TimerId)
    requires Inv(s) && Due(s, id)
    ensures Inv(Fire(s, id))
    ensures CacheStep(Abs(s), s.now, OpFire(id), Abs(Fire(s, id)))
  {
    AbsFire(s, id);
    var k := s.pending[id].key;
    if k !in Abs(s) {
      assert Abs(s) - {k} == Abs(s);
    }
  }

  lemma AbsOther(s: Store, op: Op)
    requires Inv(s) && (op.OpHSet? || op.OpHIncrBy? || op.OpTick? || (op.OpFire? && !Due(s, op.id)))
    ensures Inv(Apply(s, op))
    ensures Abs(Apply(s, op)) == Abs(s)
  {
    assert Apply(s, op).values == s.values;
  }

  ghost predicate Refines(s: Store, op: Op, s': Store) {
    Inv(s') && CacheStep(Abs(s), s.now, op, Abs(s'))
  }

  lemma SetExRefines(s: Store, k: Key, ttl: int, v: string)
    requires Inv(s)
    ensures Refines(s, OpSetEx(k, ttl, v), SetEx(s, k, ttl, v))
  {
    AbsSetEx(s, k, ttl, v);
  }

  lemma ExpireRefines(s: Store, k: Key, ttl: int)
    requires Inv(s)
    ensures Refines(s, OpExpire(k, ttl), Expire(s, k, ttl))
  {
    AbsExpire(s, k, ttl);
  }

  lemma DelRefines(s: Store, k: Key)
    requires Inv(s)
    ensures Refines(s, OpDel(k), Del(s, k))
  {
    AbsDel(s, k);
  }

  /** The timeout of a key, and when it comes. */
  predicate TimedAs(s: Store, k: Key, t: Timeout) {
    k in s.timers && s.timers[k] in s.pending && s.pending[s.timers[k]] == t
  }

  /**
    Setting a value gives its key a timeout that drops the value, setting an expiry one that drops
    value and bucket, and both after exactly that many seconds, for every number of seconds that the
    runtime can count. The value is there until then, and the bucket is not touched.
   */
  lemma TimeoutsAreTimely(s: Store, k: Key, ttl: int, v: string)
    requires 1 <= ttl <= 2_147_483
    ensures var z := SetEx(s, k, ttl, v);
            TimedAs(z, k, Timeout(k, DropValue, s.now + 1000 * ttl)) && Get(z, k) == Some(v) && z.hashes == s.hashes
    ensures var z := Expire(s, k, ttl);
            TimedAs(z, k, Timeout(k, DropAll, s.now + 1000 * ttl)) && z.values == s.values && z.hashes == s.hashes
  {
    SetExIs(s, k, ttl, v);
    RescheduleIs(s, k, DropAll, ttl);
  }

  /** A deletion leaves nothing of its key, not even a timeout to come, and touches no other key. */
  lemma DeletionIsComplete(s: Store, k: Key)
    requires Inv(s)
    ensures var z := Del(s, k);
            && k !in z.values && k !in z.hashes && k !in z.timers && (forall id <- z.pending :: z.pending[id].key != k)
            && (forall x | x != k :: Get(z, x) == Get(s, x) && HGetAll(z, x) == HGetAll(s, x))
            && (forall id <- s.pending | s.pending[id].key != k :: id in z.pending && z.pending[id] == s.pending[id])
  {
  }

  /** Every step of the store is a step of the plain map. */
  lemma ApplyRefines(s: Store, op: Op)
    requires Inv(s)
    ensures Inv(Apply(s, op))
    ensures CacheStep(Abs(s), s.now, op, Abs(Apply(s, op)))
  {
    assert Refines(s, op, Apply(s, op)) by {
      match op
      case OpSetEx(k, ttl, v) => SetExRefines(s, k, ttl, v);
      case OpDel(k) => DelRefines(s, k);
      case OpExpire(k, ttl) => ExpireRefines(s, k, ttl);
      case OpFire(id) =>
        if Due(s, id) { FireEvicts(s, id); } else { AbsOther(s, op); }
      case _ => AbsOther(s, op);
    }
  }

  /** ... and so is every step of every run, in which a read finds a key exactly if the plain map has it. */
  lemma EveryRunRefines(now: int, ops: seq<Op>, op: Op, k: Key)
    ensures var s := Run(Empty(now), ops);
            && CacheStep(Abs(s), s.now, op, Abs(Apply(s, op)))
            && Get(s, k) == if k in Abs(s) then Some(Abs(s)[k].value) else None
  {
    RunKeepsInv(Empty(now), ops);
    ApplyRefines(Run(Empty(now), ops), op);
  }

  // ---------- Buckets as one flat map from key and field ----------

  function FieldAt(s: Store, k: Key, f: FieldName): Option<Field> {
    var b := HGetAll(s, k);
    if f in b then Some(b[f]) else None
  }

  /** What an increment leaves in a field: a missing field counts as zero, anything but a number spoils the sum. */
  ghost predicate Counts(before: Option<Field>, increment: int, after: Option<Field>) {
    && after.Some?
    && (before.None? ==> after.value == Num(increment))
    && (before.Some? && before.value.Num? ==> after.value == Num(before.value.n + increment))
    && (before.Some? && !before.value.Num? ==> after.value == NotANumber)
  }

  /** The step is about this field of this key. */
  predicate Touches(s: Store, op: Op, k: Key, f: FieldName) {
    match op
    case OpHSet(k', entries) => k' == k && f in entries
    case OpHIncrBy(k', f', _) => k' == k && f' == f
    case OpDel(k') => k' == k
    case OpFire(id) => Due(s, id) && s.pending[id] == Timeout(k, DropAll, s.pending[id].due)
    case _ => false
  }

  /** What a step does to the buckets. */
  lemma StepOnBuckets(s: Store, op: Op)
    requires op.OpSetEx? || op.OpDel? || op.OpExpire? || op.OpFire? || op.OpTick?
    ensures Apply(s, op).hashes ==
            if op.OpDel? then s.hashes - {op.key}
            else if op.OpFire? && Due(s, op.id) && s.pending[op.id].callback == DropAll
                then s.hashes - {s.pending[op.id].key}
            else s.hashes
  {
  }

  /** A step changes the fields it is about, and no other field of any bucket. */
  lemma StepOnField(s: Store, op: Op, k: Key, f: FieldName)
    ensures var before, after := FieldAt(s, k, f), FieldAt(Apply(s, op), k, f);
            if !Touches(s, op, k, f) then after == before
            else if op.OpHSet? then after == Some(op.entries[f])
            else if op.OpHIncrBy? then Counts(before, op.increment, after)
            else after == None
  {
    if op.OpHSet? {
      FieldSet(s, op.key, op.entries, k, f);
    } else if op.OpHIncrBy? {
      FieldIncremented(s, op.key, op.field, op.increment, k, f);
    } else {
      OtherOnField(s, op, k, f);
    }
  }

  lemma OtherOnField(s: Store, op: Op, k: Key, f: FieldName)
    requires op.OpSetEx? || op.OpDel? || op.OpExpire? || op.OpFire? || op.OpTick?
    ensures FieldAt(Apply(s, op), k, f) == if Touches(s, op, k, f) then None else FieldAt(s, k, f)
  {
    StepOnBuckets(s, op);
  }

  lemma FieldSet(s: Store, k': Key, entries: Bucket, k: Key, f: FieldName)
    ensures FieldAt(HSet(s, k', entries), k, f) ==
        if k == k' && f in entries then Some(entries[f]) else FieldAt(s, k, f)
  {
  }

  lemma FieldIncremented(s: Store, k': Key, f': FieldName, increment: int, k: Key, f: FieldName)
    ensures var after := FieldAt(HIncrBy(s, k', f', increment), k, f);
            if k == k' && f == f' then Counts(FieldAt(s, k, f), increment, after) else after == FieldAt(s, k, f)
  {
  }

  /**
    A cache without timers: entries are never evicted, a read simply ignores what is past its
    deadline, and an expiry can only be moved while the entry can still be read.
   */
  datatype Lazy = Lazy(entries: Cache, now: int)

  predicate Live(l: Lazy, k: Key) {
    k in l.entries && l.now < l.entries[k].deadline
  }

  function LazyGet(l: Lazy, k: Key): Option<string> {
    if Live(l, k) then Some(l.entries[k].value) else None
  }

  function LazyApply(l: Lazy, op: Op): Lazy {
    match op
    case OpSetEx(k, ttl, v) => l.(entries := l.entries[k := Entry(v, l.now + Delay(ttl))])
    case OpDel(k) => l.(entries := l.entries - {k})
    case OpExpire(k, ttl) =>
      if Live(l, k) then l.(entries := l.entries[k := Entry(l.entries[k].value, l.now + Delay(ttl))]) else l
    case OpTick(ms) => l.(now := l.now + ms)
    case _ => l
  }

  function LazyRun(l: Lazy, ops: seq<Op>): Lazy
    decreases |ops|
  {
    if ops == [] then l else LazyRun(LazyApply(l, ops[0]), ops[1..])
  }

  predicate Overdue(s: Store, k: Key) {
    k in s.timers && Due(s, s.timers[k])
  }

  /**
    The one step on which lateness of the runtime shows: moving the expiry of a value whose timeout
    should have run.
   */
  predicate RevivesOverdue(s: Store, op: Op) {
    op.OpExpire? && op.key in s.values && Overdue(s, op.key)
  }

  predicate NoRevival(s: Store, ops: seq<Op>)
    decreases |ops|
  {
    ops == [] || (!RevivesOverdue(s, ops[0]) && NoRevival(Apply(s, ops[0]), ops[1..]))
  }

  ghost predicate SameAt(c: Cache, l: Lazy, k: Key) {
    Live(Lazy(c, l.now), k) == Live(l, k) && (Live(l, k) ==> c[k] == l.entries[k])
  }

  /** The readable parts agree. */
  ghost predicate Agree(s: Store, l: Lazy) {
    s.now == l.now && forall k :: SameAt(Abs(s), l, k)
  }

  lemma StepAgrees(s: Store, l: Lazy, op: Op)
    requires Inv(s) && Agree(s, l)
    ensures Inv(Apply(s, op))
    ensures Agree(Apply(s, op), LazyApply(l, op)) <==> !RevivesOverdue(s, op)
  {
    ClocksAgree(s, l, op);
    if op.OpExpire? {
      AbsExpire(s, op.key, op.ttlSeconds);
      ExpireAgrees(Abs(s), l, op.key, op.ttlSeconds);
    } else {
      ApplyRefines(s, op);
      OtherAgrees(Abs(s), l, op, Abs(Apply(s, op)));
    }
  }

  lemma ClocksAgree(s: Store, l: Lazy, op: Op)
    requires s.now == l.now
    ensures Apply(s, op).now == LazyApply(l, op).now
  {
  }

  lemma ExpireAgrees(c: Cache, l: Lazy, key: Key, ttl: int)
    requires forall k :: SameAt(c, l, k)
    ensures var c' := if key in c then c[key := Entry(c[key].value, l.now + Delay(ttl))] else c;
            (forall k :: SameAt(c', LazyApply(l, OpExpire(key, ttl)), k)) <==> !(key in c && c[key].deadline <= l.now)
  {
    var c' := if key in c then c[key := Entry(c[key].value, l.now + Delay(ttl))] else c;
    var l' := LazyApply(l, OpExpire(key, ttl));
    assert SameAt(c, l, key);
    if key in c && c[key].deadline <= l.now {
      assert !SameAt(c', l', key);
    } else {
      forall k ensures SameAt(c', l', k) {
        assert SameAt(c, l, k);
      }
    }
  }

  lemma OtherAgrees(c: Cache, l: Lazy, op: Op, c': Cache)
    requires forall k :: SameAt(c, l, k)
    requires !op.OpExpire? && CacheStep(c, l.now, op, c')
    ensures forall k :: SameAt(c', LazyApply(l, op), k)
  {
    forall k ensures SameAt(c', LazyApply(l, op), k) {
      assert SameAt(c, l, k);
    }
  }

  lemma {:induction false} RunAgrees(s: Store, l: Lazy, ops: seq<Op>)
    requires Inv(s) && Agree(s, l)
    requires NoRevival(s, ops)
    ensures Inv(Run(s, ops))
    ensures Agree(Run(s, ops), LazyRun(l, ops))
    decreases |ops|
  {
    if ops != [] {
      StepAgrees(s, l, ops[0]);
      RunAgrees(Apply(s, ops[0]), LazyApply(l, ops[0]), ops[1..]);
    }
  }

  /**
    What a reader sees, over every run from the empty store: a value that the timerless cache
    still has is returned, whatever timeouts fired or were cancelled; anything else that is
    returned belongs to a key whose own timeout is overdue.
   */
  lemma GetAgreesWithLazyCache(now: int, ops: seq<Op>, k: Key)
    requires NoRevival(Empty(now), ops)
    ensures var s, l := Run(Empty(now), ops), LazyRun(Lazy(map[], now), ops);
            && (Live(l, k) ==> Get(s, k) == LazyGet(l, k))
            && (Get(s, k) != LazyGet(l, k) <==> Get(s, k).Some? && Overdue(s, k))
  {
    RunAgrees(Empty(now), Lazy(map[], now), ops);
    var s, l := Run(Empty(now), ops), LazyRun(Lazy(map[], now), ops);
    assert SameAt(Abs(s), l, k);
  }

  // ---------- Imperative form ----------

  class KeyValueStore {
    var inMemoryKeyValueStore: map<Key, string>
    var inMemoryHashStore: map<Key, Bucket>
    var inMemoryExpiryTimers: map<Key, TimerId>
    // the runtime's side: scheduled timeouts and the clock
    var pending: map<TimerId, Timeout>
    var nextTimer: TimerId
    var now: int

    ghost function Model(): Store
      reads this
    {
      Store(inMemoryKeyValueStore, inMemoryHashStore, inMemoryExpiryTimers, pending, nextTimer, now)
    }

    constructor (clock: int)
      ensures Model() == Empty(clock)
    {
      inMemoryKeyValueStore, inMemoryHashStore, inMemoryExpiryTimers := map[], map[], map[];
      pending, nextTimer, now := map[], 0, clock;
    }

    method SetTimeout(key: Key, callback: Callback, ttlSeconds: int) returns (id: TimerId)
      modifies this`pending, this`nextTimer
      ensures id == old(nextTimer) && nextTimer == id + 1
      ensures pending == old(pending)[id := Timeout(key, callback, now + Delay(ttlSeconds))]
    {
      id := nextTimer;
      pending := pending[id := Timeout(key, callback, now + Delay(ttlSeconds))];
      nextTimer := nextTimer + 1;
    }

    method CancelExistingTimer(key: Key)
      modifies this
      ensures Model() == ClearExistingTimer(old(Model()), key)
    {
      if key in inMemoryExpiryTimers {
        pending := pending - {inMemoryExpiryTimers[key]};
        inMemoryExpiryTimers := inMemoryExpiryTimers - {key};
      }
    }

    method StoreSetEx(key: Key, ttlSeconds: int, value: string)
      modifies this
      ensures Model() == SetEx(old(Model()), key, ttlSeconds, value)
    {
      inMemoryKeyValueStore := inMemoryKeyValueStore[key := value];
      CancelExistingTimer(key);
      var timeout := SetTimeout(key, DropValue, ttlSeconds);
      inMemoryExpiryTimers := inMemoryExpiryTimers[key := timeout];
    }

    method StoreGet(key: Key) returns (r: Option<string>)
      ensures r == Get(Model(), key)
    {
      if key in inMemoryKeyValueStore {
        r := Some(inMemoryKeyValueStore[key]);
      } else {
        r := None;
      }
    }

    method StoreDel(key: Key)
      modifies this
      ensures Model() == Del(old(Model()), key)
    {
      inMemoryKeyValueStore := inMemoryKeyValueStore - {key};
      inMemoryHashStore := inMemoryHashStore - {key};
      CancelExistingTimer(key);
    }

    method StoreHGetAll(key: Key) returns (record: Bucket)
      ensures record == HGetAll(Model(), key)
    {
      if key !in inMemoryHashStore { return map[]; }
      record := inMemoryHashStore[key];
    }

    method StoreHSet(key: Key, entries: Bucket)
      modifies this
      ensures Model() == HSet(old(Model()), key, entries)
    {
      if key !in inMemoryHashStore {
        inMemoryHashStore := inMemoryHashStore[key := map[]];
      }
      inMemoryHashStore := inMemoryHashStore[key := inMemoryHashStore[key] + entries];
    }

    method StoreHIncrBy(key: Key, field: FieldName, increment: int) returns (next: Field)
      modifies this
      ensures Model() == HIncrBy(old(Model()), key, field, increment)
      ensures next == HGetAll(Model(), key)[field]
    {
      if key !in inMemoryHashStore {
        inMemoryHashStore := inMemoryHashStore[key := map[]];
      }
      next := Incremented(inMemoryHashStore[key], field, increment);
      inMemoryHashStore := inMemoryHashStore[key := inMemoryHashStore[key][field := next]];
    }

    method StoreExpire(key: Key, ttlSeconds: int)
      modifies this
      ensures Model() == Expire(old(Model()), key, ttlSeconds)
    {
      CancelExistingTimer(key);
      var timeout := SetTimeout(key, DropAll, ttlSeconds);
      inMemoryExpiryTimers := inMemoryExpiryTimers[key := timeout];
    }

    /** The runtime calls a timeout back. */
    method TimeoutElapsed(id: TimerId)
      requires Due(Model(), id)
      modifies this
      ensures Model() == Fire(old(Model()), id)
    {
      var Timeout(key, callback, _) := pending[id];
      pending := pending - {id};
      if callback == DropAll {
        inMemoryHashStore := inMemoryHashStore - {key};
      }
      inMemoryKeyValueStore := inMemoryKeyValueStore - {key};
      inMemoryExpiryTimers := inMemoryExpiryTimers - {key};
    }
  }
}
