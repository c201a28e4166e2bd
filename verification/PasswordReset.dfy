/**
  The password-reset protocol: one-time password, reset token, new password.

  Every `await` of the three async functions is a step boundary, so any number of calls may be
  suspended at once; `Proc` says where a suspended call will go on. Between two boundaries a call
  runs undisturbed on the store of module TtlStore.
 */
module PasswordReset {
  import opened Common
  import opened TtlStore

  const OTP_TTL_MS := 600_000
  const OTP_TTL_SECONDS := 600
  const TOKEN_TTL_SECONDS := 900
  const COOLDOWN_MS := 60_000
  const MAX_ATTEMPTS := 5

  const OTP_PREFIX := "pwd_otp:"
  const TOKEN_PREFIX := "pwd_reset_token:"

  function OtpKey(email: string): Key { OTP_PREFIX + email }

  function TokenKey(email: string): Key { TOKEN_PREFIX + email }

  predicate IsOtpKey(k: Key) { OTP_PREFIX <= k }

  predicate IsTokenKey(k: Key) { TOKEN_PREFIX <= k }

  function OtpEmail(k: Key): string
    requires IsOtpKey(k)
  {
    k[|OTP_PREFIX|..]
  }

  lemma OtpKeyOnto(k: Key)
    requires IsOtpKey(k)
    ensures OtpKey(OtpEmail(k)) == k
  {
    assert k == k[..|OTP_PREFIX|] + k[|OTP_PREFIX|..];
  }

  /** The two key spaces are disjoint and both key functions are injective. */
  lemma KeysNeverCollide(a: string, b: string)
    ensures OtpKey(a) != TokenKey(b)
    ensures OtpKey(a) == OtpKey(b) ==> a == b
    ensures TokenKey(a) == TokenKey(b) ==> a == b
    ensures IsTokenKey(TokenKey(a)) && !IsOtpKey(TokenKey(a))
  {
    assert OtpKey(a)[4] == 'o' && TokenKey(b)[4] == 'r' && TokenKey(a)[4] == 'r';
    assert OTP_PREFIX[4] == 'o';
    assert TokenKey(a)[..|TOKEN_PREFIX|] == TOKEN_PREFIX;
    assert OtpKey(a)[|OTP_PREFIX|..] == a && OtpKey(b)[|OTP_PREFIX|..] == b;
    assert TokenKey(a)[|TOKEN_PREFIX|..] == a && TokenKey(b)[|TOKEN_PREFIX|..] == b;
  }

  // ---------- What the stretches between awaits compute ----------

  predicate CoolingDown(record: Bucket, now: int) {
    LastSentAt in record && record[LastSentAt].Num? && now - record[LastSentAt].n < COOLDOWN_MS
  }

  function OtpRecord(otp: string, salt: nat, at: int): Bucket {
    map[OtpHash := Hash(otp, salt),
        ExpiresAt := Num(at + OTP_TTL_MS),
        Attempts := Num(0),
        MaxAttempts := Num(MAX_ATTEMPTS),
        LastSentAt := Num(at)]
  }

  datatype Verdict = Refuse | DropRecord | CompareWith(hash: Field)

  /** A missing or non-numeric field makes a JavaScript comparison false. */
  predicate HasNum(record: Bucket, f: FieldName) { f in record && record[f].Num? }

  function Judge(record: Bucket, now: int): Verdict {
    if OtpHash !in record then Refuse
    else if HasNum(record, ExpiresAt) && record[ExpiresAt].n < now then DropRecord
    else if HasNum(record, Attempts) && HasNum(record, MaxAttempts) && record[Attempts].n >= record[MaxAttempts].n
        then DropRecord
    else CompareWith(record[OtpHash])
  }

  function AfterJudge(s: Store, email: string, v: Verdict): Store {
    if v.DropRecord? then Del(s, OtpKey(email)) else s
  }

  predicate Matches(otp: string, hash: Field) { hash.Hash? && hash.secret == otp }

  function AfterCompare(s: Store, email: string, ok: bool, token: string): Store {
    if ok then SetEx(s, TokenKey(email), TOKEN_TTL_SECONDS, token) else HIncrBy(s, OtpKey(email), Attempts, 1)
  }

  // ---------- The protocol as a transition system ----------

  datatype Proc =
    | Hashing(email: string, at: int, otp: string)               // request: bcrypt.hash under way
    | Arming(email: string)                                      // request: record written, expiry to be set
    | Reading(email: string, otp: string, at: int, record: Bucket) // verify: record read
    | Comparing(email: string, otp: string, hash: Field, readAt: int) // verify: bcrypt.compare under way
    | Granted(email: string, salt: nat)                          // verify: token stored, record to be dropped
    | Scanning(token: string, rest: seq<string>)                 // reset: scanning the accounts
    | Matched(token: string, email: string)                      // reset: account found, password to be changed
    | Clearing(token: string, email: string)                     // reset: password changed, token to be dropped

  type Pid = nat

  datatype Issue = Issue(email: string, otp: string, at: int)
  datatype Grant = Grant(email: string, salt: nat, presented: string, readAt: int, at: int)
  datatype Change = Change(token: string, email: string)

  /**
    The last four fields are a history: OTPs issued (indexed by salt) and compared, tokens granted,
    passwords changed.
   */
  datatype System = System(
    store: Store,
    procs: map<Pid, Proc>,
    nextPid: Pid,
    issued: seq<Issue>,
    comparisons: seq<nat>,
    granted: map<string, Grant>,
    changes: seq<Change>)

  datatype Event =
    | RequestStart(email: string, registered: bool, otp: string)
    | VerifyStart(email: string, otp: string)
    | ResetStart(token: string, accounts: seq<string>)
    | Resume(pid: Pid, draw: string, accountGone: bool)
    | FireTimer(id: TimerId)
    | Tick(ms: nat)

  predicate Starts(e: Event) { e.RequestStart? || e.VerifyStart? || e.ResetStart? }

  function Spawn(y: System, p: Proc): System {
    y.(procs := y.procs[y.nextPid := p], nextPid := y.nextPid + 1)
  }

  function Goto(y: System, pid: Pid, p: Proc): System {
    y.(procs := y.procs[pid := p])
  }

  function Finish(y: System, pid: Pid): System {
    y.(procs := y.procs - {pid})
  }

  /** A suspended call runs up to its next await. `draw` is a token just drawn at random: never one granted before. */
  function Continue(y: System, pid: Pid, draw: string, accountGone: bool): System
    requires pid in y.procs
  {
    match y.procs[pid]
    case Hashing(email, at, otp) =>
      var salt := |y.issued|;
      Goto(y, pid, Arming(email)).(
        store := HSet(y.store, OtpKey(email), OtpRecord(otp, salt, at)),
        issued := y.issued + [Issue(email, otp, at)],
        comparisons := y.comparisons + [0])
    case Arming(email) =>
      Finish(y, pid).(store := Expire(y.store, OtpKey(email), OTP_TTL_SECONDS))
    case Reading(email, otp, at, record) =>
      var v := Judge(record, at);
      var z := y.(store := AfterJudge(y.store, email, v));
      if v.CompareWith? then
        Goto(z, pid, Comparing(email, otp, v.hash, at)).(
          comparisons := if v.hash.Hash? && v.hash.salt < |y.comparisons|
                         then y.comparisons[v.hash.salt := y.comparisons[v.hash.salt] + 1] else y.comparisons)
      else Finish(z, pid)
    case Comparing(email, otp, hash, readAt) =>
      if !Matches(otp, hash) then
        Finish(y, pid).(store := AfterCompare(y.store, email, false, draw))
      else if draw in y.granted then y
      else
        Goto(y, pid, Granted(email, hash.salt)).(
          store := AfterCompare(y.store, email, true, draw),
          granted := y.granted[draw := Grant(email, hash.salt, otp, readAt, y.store.now)])
    case Granted(email, salt) =>
      Finish(y, pid).(store := Del(y.store, OtpKey(email)))
    case Scanning(token, rest) =>
      if rest == [] then Finish(y, pid)
      else if Get(y.store, TokenKey(rest[0])) == Some(token) then Goto(y, pid, Matched(token, rest[0]))
      else Goto(y, pid, Scanning(token, rest[1..]))
    case Matched(token, email) =>
      if accountGone then Finish(y, pid).(store := Del(y.store, TokenKey(email)))
      else Goto(y, pid, Clearing(token, email)).(changes := y.changes + [Change(token, email)])
    case Clearing(token, email) =>
      Finish(y, pid).(store := Del(y.store, TokenKey(email)))
  }

  function Apply(y: System, e: Event): System {
    match e
    case RequestStart(email, registered, otp) =>
      if registered && !CoolingDown(HGetAll(y.store, OtpKey(email)), y.store.now)
      then Spawn(y, Hashing(email, y.store.now, otp)) else y
    case VerifyStart(email, otp) =>
      Spawn(y, Reading(email, otp, y.store.now, HGetAll(y.store, OtpKey(email))))
    case ResetStart(token, accounts) => Spawn(y, Scanning(token, accounts))
    case Resume(pid, draw, gone) => if pid in y.procs then Continue(y, pid, draw, gone) else y
    case FireTimer(id) => if Due(y.store, id) then y.(store := Fire(y.store, id)) else y
    case Tick(ms) => y.(store := y.store.(now := y.store.now + ms))
  }

  function Run(y: System, es: seq<Event>): System
    decreases |es|
  {
    if es == [] then y else Run(Apply(y, es[0]), es[1..])
  }

  function Initial(now: int): System {
    System(Empty(now), map[], 0, [], [], map[], [])
  }

  // ---------- Invariants of every interleaving ----------

  type Issues = seq<Issue>
  type Procs = map<Pid, Proc>

  /** The hash in a field belongs to an OTP issued for this account. */
  predicate HashFor(issued: Issues, f: Field, email: string) {
    f.Hash? && f.salt < |issued| && issued[f.salt].email == email && issued[f.salt].otp == f.secret
  }

  predicate Full(b: Bucket) {
    && OtpHash in b && b[OtpHash].Hash?
    && HasNum(b, ExpiresAt) && HasNum(b, LastSentAt)
    && HasNum(b, Attempts) && b[Attempts].n >= 0
    && MaxAttempts in b && b[MaxAttempts] == Num(MAX_ATTEMPTS)
  }

  /** A bucket brought back by an increment that came after its record was dropped. */
  predicate Leftover(b: Bucket) {
    b.Keys == {Attempts} && b[Attempts].Num?
  }

  ghost predicate RecordOk(issued: Issues, b: Bucket, email: string) {
    if OtpHash in b then
      && Full(b) && HashFor(issued, b[OtpHash], email)
      && b[LastSentAt].n == issued[b[OtpHash].salt].at
      && b[ExpiresAt].n == issued[b[OtpHash].salt].at + OTP_TTL_MS
    else b == map[] || Leftover(b)
  }

  ghost predicate BucketsOk(hashes: map<Key, Bucket>, issued: Issues) {
    forall k <- hashes :: IsOtpKey(k) && RecordOk(issued, hashes[k], OtpEmail(k))
  }

  ghost predicate ValuesOk(values: map<Key, string>, granted: map<string, Grant>) {
    forall k <- values :: values[k] in granted && k == TokenKey(granted[values[k]].email)
  }

  predicate TimeoutOk(t: Timeout) {
    if IsOtpKey(t.key) then t.callback == DropAll else IsTokenKey(t.key) && t.callback == DropValue
  }

  ghost predicate TimeoutsOk(pending: map<TimerId, Timeout>) {
    forall id <- pending :: TimeoutOk(pending[id])
  }

  /** The key has its timeout, or a call is about to set one. */
  ghost predicate Armed(timers: map<Key, TimerId>, procs: Procs, k: Key) {
    k in timers || exists pid <- procs :: procs[pid].Arming? && OtpKey(procs[pid].email) == k
  }

  ghost predicate Timed(hashes: map<Key, Bucket>, timers: map<Key, TimerId>, procs: Procs) {
    forall k <- hashes | OtpHash in hashes[k] :: Armed(timers, procs, k)
  }

  ghost predicate ProcOk(issued: Issues, granted: map<string, Grant>, p: Proc) {
    match p
    case Reading(email, _, _, record) => RecordOk(issued, record, email)
    case Comparing(email, _, hash, readAt) => HashFor(issued, hash, email)
        && readAt <= issued[hash.salt].at + OTP_TTL_MS
    case Granted(email, salt) => salt < |issued| && issued[salt].email == email
    case Matched(token, email) => token in granted && granted[token].email == email
    case Clearing(token, email) => token in granted && granted[token].email == email
    case _ => true
  }

  ghost predicate ProcsOk(procs: Procs, nextPid: Pid, issued: Issues, granted: map<string, Grant>) {
    forall pid <- procs :: pid < nextPid && ProcOk(issued, granted, procs[pid])
  }

  /** The OTP presented was one issued for the account, and not older than its lifetime when its record was read. */
  predicate GrantedFor(g: Grant, issued: Issues) {
    && g.salt < |issued|
    && issued[g.salt].email == g.email && issued[g.salt].otp == g.presented
    && g.readAt <= issued[g.salt].at + OTP_TTL_MS
  }

  ghost predicate GrantsOk(granted: map<string, Grant>, issued: Issues) {
    forall t <- granted :: GrantedFor(granted[t], issued)
  }

  ghost predicate ChangesOk(changes: seq<Change>, granted: map<string, Grant>) {
    forall c <- changes :: c.token in granted && granted[c.token].email == c.email
  }

  ghost predicate Safe(y: System) {
    && TtlStore.Inv(y.store)
    && BucketsOk(y.store.hashes, y.issued)
    && ValuesOk(y.store.values, y.granted)
    && TimeoutsOk(y.store.pending)
    && Timed(y.store.hashes, y.store.timers, y.procs)
    && ProcsOk(y.procs, y.nextPid, y.issued, y.granted)
    && GrantsOk(y.granted, y.issued)
    && ChangesOk(y.changes, y.granted)
    && |y.comparisons| == |y.issued|
  }

  // ---------- Preservation ----------

  /** Writing a record replaces whatever the bucket held. */
  lemma RecordReplaces(b: Bucket, otp: string, salt: nat, at: int)
    ensures b + OtpRecord(otp, salt, at) == OtpRecord(otp, salt, at)
  {
    var r := OtpRecord(otp, salt, at);
    forall f: FieldName ensures f in r {
      match f case OtpHash => case ExpiresAt => case Attempts => case MaxAttempts => case LastSentAt =>
    }
  }

  /** A call that is not about to set a timeout may move on or finish. */
  lemma TimedAfterMove(hashes: map<Key, Bucket>, timers: map<Key, TimerId>, procs: Procs, procs': Procs, pid: Pid)
    requires Timed(hashes, timers, procs)
    requires pid in procs ==> !procs[pid].Arming?
    requires forall q <- procs | q != pid :: q in procs' && procs'[q] == procs[q]
    ensures Timed(hashes, timers, procs')
  {
    forall k <- hashes | OtpHash in hashes[k] ensures Armed(timers, procs', k) {
      assert Armed(timers, procs, k);
    }
  }

  lemma SpawnSafe(y: System, p: Proc)
    requires Safe(y) && ProcOk(y.issued, y.granted, p)
    ensures Safe(Spawn(y, p))
  {
    TimedAfterMove(y.store.hashes, y.store.timers, y.procs, Spawn(y, p).procs, y.nextPid);
  }

  lemma GotoOk(y: System, pid: Pid, p: Proc)
    requires Safe(y) && pid in y.procs && !y.procs[pid].Arming? && ProcOk(y.issued, y.granted, p)
    ensures Safe(Goto(y, pid, p))
  {
    TimedAfterMove(y.store.hashes, y.store.timers, y.procs, y.procs[pid := p], pid);
  }

  lemma FinishOk(y: System, pid: Pid)
    requires Safe(y) && pid in y.procs && !y.procs[pid].Arming?
    ensures Safe(Finish(y, pid))
  {
    TimedAfterMove(y.store.hashes, y.store.timers, y.procs, y.procs - {pid}, pid);
  }

  lemma WrittenBuckets(hashes: map<Key, Bucket>, issued: Issues, i: Issue)
    requires BucketsOk(hashes, issued)
    ensures BucketsOk(hashes[OtpKey(i.email) := OtpRecord(i.otp, |issued|, i.at)], issued + [i])
  {
    var hashes' := hashes[OtpKey(i.email) := OtpRecord(i.otp, |issued|, i.at)];
    forall k <- hashes' ensures IsOtpKey(k) && RecordOk(issued + [i], hashes'[k], OtpEmail(k)) {
      if k != OtpKey(i.email) { assert RecordOk(issued, hashes[k], OtpEmail(k)); }
    }
  }

  lemma WrittenTimed(hashes: map<Key, Bucket>, timers: map<Key, TimerId>, procs: Procs, pid: Pid, email: string,
                     r: Bucket)
    requires Timed(hashes, timers, procs) && pid in procs && !procs[pid].Arming?
    ensures Timed(hashes[OtpKey(email) := r], timers, procs[pid := Arming(email)])
  {
    var procs' := procs[pid := Arming(email)];
    TimedAfterMove(hashes, timers, procs, procs', pid);
    assert procs'[pid].Arming? && OtpKey(procs'[pid].email) == OtpKey(email);
    forall k <- hashes[OtpKey(email) := r] | OtpHash in hashes[OtpKey(email) := r][k]
      ensures Armed(timers, procs', k) {}
  }

  /** Issuing an OTP: the record is written and the writer goes on to set its timeout. */
  lemma WriteRecordSafe(y: System, pid: Pid, draw: string, gone: bool)
    requires Safe(y) && pid in y.procs && y.procs[pid].Hashing?
    ensures Safe(Continue(y, pid, draw, gone))
  {
    var Hashing(email, at, otp) := y.procs[pid];
    var r, i := OtpRecord(otp, |y.issued|, at), Issue(email, otp, at);
    RecordReplaces(HGetAll(y.store, OtpKey(email)), otp, |y.issued|, at);
    WrittenBuckets(y.store.hashes, y.issued, i);
    WrittenTimed(y.store.hashes, y.store.timers, y.procs, pid, email, r);
    assert HSet(y.store, OtpKey(email), r) == y.store.(hashes := y.store.hashes[OtpKey(email) := r]);
  }

  lemma ArmedTimed(hashes: map<Key, Bucket>, timers: map<Key, TimerId>, id: TimerId, procs: Procs, pid: Pid)
    requires Timed(hashes, timers, procs) && pid in procs && procs[pid].Arming?
    ensures Timed(hashes, timers[OtpKey(procs[pid].email) := id], procs - {pid})
  {
    var timers', procs' := timers[OtpKey(procs[pid].email) := id], procs - {pid};
    forall k <- hashes | OtpHash in hashes[k] ensures Armed(timers', procs', k) {
      assert Armed(timers, procs, k);
      if k !in timers' {
        var q :| q in procs && procs[q].Arming? && OtpKey(procs[q].email) == k;
        assert q in procs' && procs'[q].Arming?;
      }
    }
  }

  lemma ArmSafe(y: System, pid: Pid, draw: string, gone: bool)
    requires Safe(y) && pid in y.procs && y.procs[pid].Arming?
    ensures Safe(Continue(y, pid, draw, gone))
  {
    var key := OtpKey(y.procs[pid].email);
    AbsExpire(y.store, key, OTP_TTL_SECONDS);
    ArmedTimed(y.store.hashes, y.store.timers, y.store.nextTimer, y.procs, pid);
  }

  /** Dropping a key keeps everything; the caller then finishes. */
  lemma DelSafe(y: System, k: Key)
    requires Safe(y)
    ensures Safe(y.(store := Del(y.store, k)))
  {
    var st := Del(y.store, k);
    AbsDel(y.store, k);
    forall x <- st.hashes | OtpHash in st.hashes[x] ensures Armed(st.timers, y.procs, x) {
      assert Armed(y.store.timers, y.procs, x);
    }
  }

  lemma IncrementedBuckets(hashes: map<Key, Bucket>, issued: Issues, email: string, b: Bucket)
    requires BucketsOk(hashes, issued) && b == if OtpKey(email) in hashes then hashes[OtpKey(email)] else map[]
    ensures BucketsOk(hashes[OtpKey(email) := b[Attempts := Incremented(b, Attempts, 1)]], issued)
  {
  }

  lemma IncrementSafe(y: System, email: string)
    requires Safe(y)
    ensures Safe(y.(store := HIncrBy(y.store, OtpKey(email), Attempts, 1)))
  {
    var b := HGetAll(y.store, OtpKey(email));
    IncrementedBuckets(y.store.hashes, y.issued, email, b);
  }

  lemma StoreTokenSafe(y: System, email: string, token: string)
    requires Safe(y) && token in y.granted && y.granted[token].email == email
    ensures Safe(y.(store := SetEx(y.store, TokenKey(email), TOKEN_TTL_SECONDS, token)))
  {
    var key := TokenKey(email);
    KeysNeverCollide(email, email);
    AbsSetEx(y.store, key, TOKEN_TTL_SECONDS, token);
  }

  lemma GrantSafe(y: System, pid: Pid, draw: string, gone: bool)
    requires Safe(y) && pid in y.procs && y.procs[pid].Comparing?
        && Matches(y.procs[pid].otp, y.procs[pid].hash) && draw !in y.granted
    ensures Safe(Continue(y, pid, draw, gone))
  {
    var Comparing(email, otp, hash, readAt) := y.procs[pid];
    GotoOk(y, pid, Granted(email, hash.salt));
    var grant := Grant(email, hash.salt, otp, readAt, y.store.now);
    var w := Goto(y, pid, Granted(email, hash.salt)).(granted := y.granted[draw := grant]);
    assert Safe(w);
    StoreTokenSafe(w, email, draw);
  }

  lemma FireSafe(y: System, id: TimerId)
    requires Safe(y) && Due(y.store, id)
    ensures Safe(y.(store := Fire(y.store, id)))
  {
    var st, t := Fire(y.store, id), y.store.pending[id];
    AbsFire(y.store, id);
    assert TimeoutOk(t);
    forall x <- st.hashes | OtpHash in st.hashes[x] ensures Armed(st.timers, y.procs, x) {
      assert Armed(y.store.timers, y.procs, x);
    }
  }

  lemma ReadSafe(y: System, pid: Pid, draw: string, gone: bool)
    requires Safe(y) && pid in y.procs && y.procs[pid].Reading?
    ensures Safe(Continue(y, pid, draw, gone))
  {
    var Reading(email, otp, at, record) := y.procs[pid];
    var v := Judge(record, at);
    if v.CompareWith? {
      GotoOk(y, pid, Comparing(email, otp, v.hash, at));
    } else if v.DropRecord? {
      DropAndFinish(y, pid, OtpKey(email));
    } else {
      FinishOk(y, pid);
    }
  }

  lemma DropAndFinish(y: System, pid: Pid, k: Key)
    requires Safe(y) && pid in y.procs && !y.procs[pid].Arming?
    ensures Safe(Finish(y, pid).(store := Del(y.store, k)))
  {
    DelSafe(y, k);
    FinishOk(y.(store := Del(y.store, k)), pid);
  }

  lemma ComparedSafe(y: System, pid: Pid, draw: string, gone: bool)
    requires Safe(y) && pid in y.procs && y.procs[pid].Comparing?
    ensures Safe(Continue(y, pid, draw, gone))
  {
    var Comparing(email, otp, hash, readAt) := y.procs[pid];
    if !Matches(otp, hash) {
      IncrementSafe(y, email);
      FinishOk(y.(store := HIncrBy(y.store, OtpKey(email), Attempts, 1)), pid);
    } else if draw !in y.granted {
      GrantSafe(y, pid, draw, gone);
    }
  }

  lemma ScanSafe(y: System, pid: Pid, draw: string, gone: bool)
    requires Safe(y) && pid in y.procs && y.procs[pid].Scanning?
    ensures Safe(Continue(y, pid, draw, gone))
  {
    var Scanning(token, rest) := y.procs[pid];
    if rest == [] {
      FinishOk(y, pid);
    } else if Get(y.store, TokenKey(rest[0])) == Some(token) {
      KeysNeverCollide(rest[0], y.granted[token].email);
      GotoOk(y, pid, Matched(token, rest[0]));
    } else {
      GotoOk(y, pid, Scanning(token, rest[1..]));
    }
  }

  lemma ChangeSafe(y: System, pid: Pid, draw: string, gone: bool)
    requires Safe(y) && pid in y.procs && y.procs[pid].Matched?
    ensures Safe(Continue(y, pid, draw, gone))
  {
    var Matched(token, email) := y.procs[pid];
    if gone {
      DropAndFinish(y, pid, TokenKey(email));
    } else {
      GotoOk(y, pid, Clearing(token, email));
    }
  }

  lemma ContinueSafe(y: System, pid: Pid, draw: string, gone: bool)
    requires Safe(y) && pid in y.procs
    ensures Safe(Continue(y, pid, draw, gone))
  {
    match y.procs[pid]
    case Hashing(_, _, _) => WriteRecordSafe(y, pid, draw, gone);
    case Arming(_) => ArmSafe(y, pid, draw, gone);
    case Reading(_, _, _, _) => ReadSafe(y, pid, draw, gone);
    case Comparing(_, _, _, _) => ComparedSafe(y, pid, draw, gone);
    case Granted(email, _) => DropAndFinish(y, pid, OtpKey(email));
    case Scanning(_, _) => ScanSafe(y, pid, draw, gone);
    case Matched(_, _) => ChangeSafe(y, pid, draw, gone);
    case Clearing(_, email) => DropAndFinish(y, pid, TokenKey(email));
  }

  lemma ApplySafe(y: System, e: Event)
    requires Safe(y)
    ensures Safe(Apply(y, e))
  {
    match e
    case RequestStart(email, registered, otp) =>
      if Apply(y, e) != y { SpawnSafe(y, Hashing(email, y.store.now, otp)); }
    case VerifyStart(email, otp) =>
      SpawnSafe(y, Reading(email, otp, y.store.now, HGetAll(y.store, OtpKey(email))));
    case ResetStart(token, accounts) => SpawnSafe(y, Scanning(token, accounts));
    case Resume(pid, draw, gone) => if pid in y.procs { ContinueSafe(y, pid, draw, gone); }
    case FireTimer(id) => if Due(y.store, id) { FireSafe(y, id); }
    case Tick(ms) => AbsOther(y.store, OpTick(ms));
  }

  lemma {:induction false} RunSafe(y: System, es: seq<Event>)
    requires Safe(y)
    ensures Safe(Run(y, es))
    decreases |es|
  {
    if es != [] {
      ApplySafe(y, es[0]);
      RunSafe(Apply(y, es[0]), es[1..]);
    }
  }

  // ---------- No comparison is lost ----------

  /** The call has begun to compare the OTP with this salt and is not finished with it. */
  predicate WorksOn(p: Proc, salt: nat) {
    match p
    case Comparing(_, _, hash, _) => hash.Hash? && hash.salt == salt
    case Granted(_, g) => g == salt
    case _ => false
  }

  function InFlight(procs: Procs, salt: nat): set<Pid> {
    set pid <- procs | WorksOn(procs[pid], salt)
  }

  /** A started comparison is in the record's counter or still under way. */
  predicate CountedIn(b: Bucket, comparisons: seq<nat>, procs: Procs) {
    OtpHash in b && Full(b) && b[OtpHash].salt < |comparisons| ==>
      comparisons[b[OtpHash].salt] <= b[Attempts].n + |InFlight(procs, b[OtpHash].salt)|
  }

  ghost predicate Counted(hashes: map<Key, Bucket>, comparisons: seq<nat>, procs: Procs) {
    forall k <- hashes :: CountedIn(hashes[k], comparisons, procs)
  }

  function Weight(b: bool): nat { if b then 1 else 0 }

  /** Two sets of calls that differ at most in one. */
  lemma CountAfter(a: set<Pid>, b: set<Pid>, pid: Pid)
    requires a - {pid} == b - {pid}
    ensures |b| + Weight(pid in a) == |a| + Weight(pid in b)
  {
    assert a == if pid in a then (a - {pid}) + {pid} else a - {pid};
    assert b == if pid in b then (b - {pid}) + {pid} else b - {pid};
  }

  lemma SameCall(procs: Procs, procs': Procs, pid: Pid, q: Pid)
    requires procs' - {pid} == procs - {pid} && q != pid
    ensures q in procs <==> q in procs'
    ensures q in procs ==> procs[q] == procs'[q]
  {
    assert q in procs <==> q in procs - {pid};
    assert q in procs' <==> q in procs' - {pid};
    assert q in procs ==> (procs - {pid})[q] == (procs' - {pid})[q];
  }

  lemma InFlightAfter(procs: Procs, procs': Procs, pid: Pid, salt: nat)
    requires procs' - {pid} == procs - {pid}
    ensures |InFlight(procs', salt)| + Weight(pid in procs && WorksOn(procs[pid], salt))
         == |InFlight(procs, salt)| + Weight(pid in procs' && WorksOn(procs'[pid], salt))
  {
    forall q | q != pid ensures q in InFlight(procs, salt) <==> q in InFlight(procs', salt) {
      SameCall(procs, procs', pid, q);
    }
    CountAfter(InFlight(procs, salt), InFlight(procs', salt), pid);
  }

  /** The calls that do not change what is in flight, and buckets that disappear, keep the count. */
  lemma CountedAfterIdle(hashes: map<Key, Bucket>, hashes': map<Key, Bucket>, comparisons: seq<nat>, procs: Procs,
                         procs': Procs, pid: Pid)
    requires Counted(hashes, comparisons, procs)
    requires procs' - {pid} == procs - {pid}
    requires forall k <- hashes' :: k in hashes && hashes'[k] == hashes[k]
    requires forall salt: nat ::
        (pid in procs && WorksOn(procs[pid], salt)) == (pid in procs' && WorksOn(procs'[pid], salt))
    ensures Counted(hashes', comparisons, procs')
  {
    forall k <- hashes' ensures CountedIn(hashes'[k], comparisons, procs') {
      if OtpHash in hashes'[k] && Full(hashes'[k]) {
        InFlightAfter(procs, procs', pid, hashes'[k][OtpHash].salt);
      }
    }
  }

  lemma WriteRecordCounted(y: System, pid: Pid, draw: string, gone: bool)
    requires Safe(y) && Counted(y.store.hashes, y.comparisons, y.procs) && pid in y.procs && y.procs[pid].Hashing?
    ensures var z := Continue(y, pid, draw, gone);
            Counted(z.store.hashes, z.comparisons, z.procs)
  {
    var Hashing(email, at, otp) := y.procs[pid];
    var z := Continue(y, pid, draw, gone);
    RecordReplaces(HGetAll(y.store, OtpKey(email)), otp, |y.issued|, at);
    forall k <- z.store.hashes ensures CountedIn(z.store.hashes[k], z.comparisons, z.procs) {
      if k != OtpKey(email) && OtpHash in y.store.hashes[k] {
        assert RecordOk(y.issued, y.store.hashes[k], OtpEmail(k));
        assert CountedIn(y.store.hashes[k], y.comparisons, y.procs);
        InFlightAfter(y.procs, z.procs, pid, y.store.hashes[k][OtpHash].salt);
      }
    }
  }

  lemma BeginCompareCounted(y: System, pid: Pid, draw: string, gone: bool)
    requires Safe(y) && Counted(y.store.hashes, y.comparisons, y.procs)
    requires pid in y.procs && y.procs[pid].Reading? && Judge(y.procs[pid].record, y.procs[pid].at).CompareWith?
    ensures var z := Continue(y, pid, draw, gone);
            Counted(z.store.hashes, z.comparisons, z.procs)
  {
    var z := Continue(y, pid, draw, gone);
    forall k <- z.store.hashes ensures CountedIn(z.store.hashes[k], z.comparisons, z.procs) {
      var b := y.store.hashes[k];
      assert CountedIn(b, y.comparisons, y.procs);
      if OtpHash in b && Full(b) {
        InFlightAfter(y.procs, z.procs, pid, b[OtpHash].salt);
      }
    }
  }

  lemma WrongGuessCounted(y: System, pid: Pid, draw: string, gone: bool)
    requires Safe(y) && Counted(y.store.hashes, y.comparisons, y.procs)
    requires pid in y.procs && y.procs[pid].Comparing? && !Matches(y.procs[pid].otp, y.procs[pid].hash)
    ensures var z := Continue(y, pid, draw, gone);
            Counted(z.store.hashes, z.comparisons, z.procs)
  {
    var z := Continue(y, pid, draw, gone);
    forall k <- z.store.hashes ensures CountedIn(z.store.hashes[k], z.comparisons, z.procs) {
      if k in y.store.hashes && OtpHash in y.store.hashes[k] {
        var b := y.store.hashes[k];
        assert CountedIn(b, y.comparisons, y.procs);
        assert RecordOk(y.issued, b, OtpEmail(k));
        OtpKeyOnto(k);
        InFlightAfter(y.procs, z.procs, pid, b[OtpHash].salt);
      }
    }
  }

  lemma GrantedDoneCounted(y: System, pid: Pid, draw: string, gone: bool)
    requires Safe(y) && Counted(y.store.hashes, y.comparisons, y.procs) && pid in y.procs && y.procs[pid].Granted?
    ensures var z := Continue(y, pid, draw, gone);
            Counted(z.store.hashes, z.comparisons, z.procs)
  {
    var Granted(email, salt) := y.procs[pid];
    var z := Continue(y, pid, draw, gone);
    forall k <- z.store.hashes ensures CountedIn(z.store.hashes[k], z.comparisons, z.procs) {
      var b := y.store.hashes[k];
      assert CountedIn(b, y.comparisons, y.procs);
      if OtpHash in b {
        assert RecordOk(y.issued, b, OtpEmail(k));
        OtpKeyOnto(k);
        InFlightAfter(y.procs, z.procs, pid, b[OtpHash].salt);
      }
    }
  }

  lemma ContinueCounted(y: System, pid: Pid, draw: string, gone: bool)
    requires Safe(y) && Counted(y.store.hashes, y.comparisons, y.procs) && pid in y.procs
    ensures var z := Continue(y, pid, draw, gone);
            Counted(z.store.hashes, z.comparisons, z.procs)
  {
    var p := y.procs[pid];
    if p.Hashing? { WriteRecordCounted(y, pid, draw, gone); }
    else if p.Reading? && Judge(p.record, p.at).CompareWith? { BeginCompareCounted(y, pid, draw, gone); }
    else if p.Comparing? && !Matches(p.otp, p.hash) { WrongGuessCounted(y, pid, draw, gone); }
    else if p.Granted? { GrantedDoneCounted(y, pid, draw, gone); }
    else { IdleCounted(y, pid, draw, gone); }
  }

  /** A stretch that neither issues, compares, counts nor concludes. */
  predicate Idle(p: Proc) {
    !p.Hashing? && !p.Granted? && (p.Reading? ==> !Judge(p.record, p.at).CompareWith?)
      && (p.Comparing? ==> Matches(p.otp, p.hash))
  }

  lemma DelShrinks(s: Store, key: Key)
    ensures Del(s, key).hashes == s.hashes - {key} && Del(s, key).values == s.values - {key}
  {
  }

  /** Only a stretch that issues an OTP or counts a wrong guess writes to a bucket. */
  lemma BucketsShrink(y: System, pid: Pid, draw: string, gone: bool)
    requires pid in y.procs && !y.procs[pid].Hashing?
    requires y.procs[pid].Comparing? ==> Matches(y.procs[pid].otp, y.procs[pid].hash)
    ensures var z := Continue(y, pid, draw, gone);
            forall k <- z.store.hashes :: k in y.store.hashes && z.store.hashes[k] == y.store.hashes[k]
  {
    var z, p := Continue(y, pid, draw, gone), y.procs[pid];
    if p.Arming? || p.Comparing? || p.Scanning? {
      assert z.store.hashes == y.store.hashes;
    } else {
      var key := if p.Reading? || p.Granted? then OtpKey(p.email) else TokenKey(p.email);
      DelShrinks(y.store, key);
      assert z.store == y.store || z.store == Del(y.store, key);
    }
  }

  lemma IdleProcs(y: System, pid: Pid, draw: string, gone: bool)
    requires pid in y.procs && Idle(y.procs[pid])
    ensures var z := Continue(y, pid, draw, gone);
            && z.procs - {pid} == y.procs - {pid}
            && forall salt: nat :: WorksOn(y.procs[pid], salt) == (pid in z.procs && WorksOn(z.procs[pid], salt))
  {
  }

  lemma IdleCounted(y: System, pid: Pid, draw: string, gone: bool)
    requires Counted(y.store.hashes, y.comparisons, y.procs) && pid in y.procs && Idle(y.procs[pid])
    ensures var z := Continue(y, pid, draw, gone);
            Counted(z.store.hashes, z.comparisons, z.procs)
  {
    var z := Continue(y, pid, draw, gone);
    BucketsShrink(y, pid, draw, gone);
    IdleProcs(y, pid, draw, gone);
    CountedAfterIdle(y.store.hashes, z.store.hashes, y.comparisons, y.procs, z.procs, pid);
  }

  lemma OutsideCounted(y: System, e: Event)
    requires Counted(y.store.hashes, y.comparisons, y.procs) && y.nextPid !in y.procs && !e.Resume?
    ensures var z := Apply(y, e);
            Counted(z.store.hashes, z.comparisons, z.procs)
  {
    var z := Apply(y, e);
    assert z.procs - {y.nextPid} == y.procs - {y.nextPid};
    assert z.comparisons == y.comparisons;
    CountedAfterIdle(y.store.hashes, z.store.hashes, y.comparisons, y.procs, z.procs, y.nextPid);
  }

  lemma ApplyCounted(y: System, e: Event)
    requires Safe(y) && Counted(y.store.hashes, y.comparisons, y.procs)
    ensures var z := Apply(y, e);
            Counted(z.store.hashes, z.comparisons, z.procs)
  {
    if !e.Resume? {
      OutsideCounted(y, e);
    } else if e.pid in y.procs {
      ContinueCounted(y, e.pid, e.draw, e.accountGone);
    }
  }

  lemma {:induction false} RunCounted(y: System, es: seq<Event>)
    requires Safe(y) && Counted(y.store.hashes, y.comparisons, y.procs)
    ensures var z := Run(y, es);
            Safe(z) && Counted(z.store.hashes, z.comparisons, z.procs)
    decreases |es|
  {
    if es != [] {
      ApplySafe(y, es[0]);
      ApplyCounted(y, es[0]);
      RunCounted(Apply(y, es[0]), es[1..]);
    }
  }

  // ---------- Calls handled one at a time ----------

  /** A call only starts when none is suspended; timeouts and the clock go on as they like. */
  predicate OneAtATime(y: System, es: seq<Event>)
    decreases |es|
  {
    es == [] || ((Starts(es[0]) ==> y.procs == map[]) && OneAtATime(Apply(y, es[0]), es[1..]))
  }

  /** How often a token changed a password. */
  function Uses(changes: seq<Change>, token: string): nat {
    if changes == [] then 0
    else Uses(changes[..|changes| - 1], token) + Weight(changes[|changes| - 1].token == token)
  }

  ghost predicate AtMostOne(procs: Procs) {
    forall p <- procs, q <- procs :: p == q
  }

  ghost predicate AtMostFive(comparisons: seq<nat>, procs: Procs) {
    && (forall g | 0 <= g < |comparisons| :: comparisons[g] <= MAX_ATTEMPTS)
    && forall pid <- procs :: procs[pid].Reading? ==> FitsRecord(procs[pid].record, comparisons)
  }

  predicate FitsRecord(b: Bucket, comparisons: seq<nat>) {
    OtpHash in b && Full(b) && b[OtpHash].salt < |comparisons| ==> comparisons[b[OtpHash].salt] <= b[Attempts].n
  }

  /** A token that can still be found has not been used, unless the call using it is about to drop it. */
  ghost predicate TokensOnce(values: map<Key, string>, procs: Procs, changes: seq<Change>) {
    && (forall t :: Uses(changes, t) <= 1)
    && (forall k <- values :: Uses(changes, values[k]) == 0 || exists pid <- procs ::
        procs[pid].Clearing? && TokenKey(procs[pid].email) == k)
    && (forall pid <- procs :: procs[pid].Matched? ==> Uses(changes, procs[pid].token) == 0)
  }

  /** A call that is hashing a new OTP found no record that is still cooling down. */
  ghost predicate Cooled(hashes: map<Key, Bucket>, procs: Procs) {
    forall pid <- procs :: procs[pid].Hashing? && OtpKey(procs[pid].email) in hashes ==>
                             !CoolingDown(hashes[OtpKey(procs[pid].email)], procs[pid].at)
  }

  ghost predicate Serial(y: System) {
    && AtMostOne(y.procs)
    && Cooled(y.store.hashes, y.procs)
    && AtMostFive(y.comparisons, y.procs)
    && TokensOnce(y.store.values, y.procs, y.changes)
  }

  lemma UnusedIfNeverGranted(changes: seq<Change>, granted: map<string, Grant>, t: string)
    requires ChangesOk(changes, granted) && t !in granted
    ensures Uses(changes, t) == 0
  {
    if changes != [] {
      var last := |changes| - 1;
      assert changes[last] in changes;
      UnusedIfNeverGranted(changes[..last], granted, t);
    }
  }

  /** The record that is read is one whose counter knows of all comparisons. */
  lemma FirstRead(hashes: map<Key, Bucket>, comparisons: seq<nat>, b: Bucket)
    requires Counted(hashes, comparisons, map[]) && (b == map[] || b in hashes.Values)
    ensures FitsRecord(b, comparisons)
  {
    if b in hashes.Values {
      var k :| k in hashes && hashes[k] == b;
      assert CountedIn(hashes[k], comparisons, map[]);
      forall g: nat ensures InFlight(map[], g) == {} {}
    }
  }

  lemma StartSerial(y: System, e: Event)
    requires Safe(y) && Counted(y.store.hashes, y.comparisons, y.procs) && Serial(y) && Starts(e) && y.procs == map[]
    ensures Serial(Apply(y, e))
  {
    if e.VerifyStart? { FirstRead(y.store.hashes, y.comparisons, HGetAll(y.store, OtpKey(e.email))); }
    assert Apply(y, e) == y || Apply(y, e).procs == map[y.nextPid := Apply(y, e).procs[y.nextPid]];
  }

  lemma GrantTokensOnce(values: map<Key, string>, procs: Procs, procs': Procs, changes: seq<Change>, key: Key,
                        token: string)
    requires TokensOnce(values, procs, changes) && Uses(changes, token) == 0
    requires forall p <- procs :: !procs[p].Clearing?
    requires forall p <- procs' :: !procs'[p].Matched?
    ensures TokensOnce(values[key := token], procs', changes)
  {
  }

  lemma GrantSerial(y: System, pid: Pid, draw: string, gone: bool)
    requires Safe(y) && Serial(y) && pid in y.procs && y.procs[pid].Comparing?
    ensures Serial(Continue(y, pid, draw, gone))
  {
    var z := Continue(y, pid, draw, gone);
    OnlyCall(y, pid);
    if !Matches(y.procs[pid].otp, y.procs[pid].hash) {
      TokensShrink(y.store.values, y.store.values, y.procs, map[], y.changes);
      SerialFinish(y, z);
    } else if draw !in y.granted {
      UnusedIfNeverGranted(y.changes, y.granted, draw);
      GrantTokensOnce(y.store.values, y.procs, z.procs, y.changes, TokenKey(y.procs[pid].email), draw);
      SerialMove(y, z, pid, z.procs[pid]);
    }
  }

  lemma UsesAppend(changes: seq<Change>, c: Change, t: string)
    ensures Uses(changes + [c], t) == Uses(changes, t) + Weight(c.token == t)
  {
    assert (changes + [c])[..|changes|] == changes;
  }

  /** The password change: the only step that uses a token. */
  lemma UseOnce(values: map<Key, string>, procs: Procs, changes: seq<Change>, granted: map<string, Grant>, c: Change,
                pid: Pid)
    requires TokensOnce(values, procs, changes) && ValuesOk(values, granted)
    requires procs == map[pid := Matched(c.token, c.email)]
    requires c.token in granted && granted[c.token].email == c.email
    ensures TokensOnce(values, map[pid := Clearing(c.token, c.email)], changes + [c])
  {
    var procs' := map[pid := Clearing(c.token, c.email)];
    assert procs[pid].Matched? && procs'[pid].Clearing?;
    forall t ensures Uses(changes + [c], t) <= 1 { UsesAppend(changes, c, t); }
    forall k <- values
      ensures Uses(changes + [c], values[k]) == 0 || exists q <- procs' ::
          procs'[q].Clearing? && TokenKey(procs'[q].email) == k
    {
      UsesAppend(changes, c, values[k]);
    }
  }

  lemma ChangeSerial(y: System, pid: Pid, draw: string, gone: bool)
    requires Safe(y) && Serial(y) && pid in y.procs && y.procs[pid].Matched?
    ensures Serial(Continue(y, pid, draw, gone))
  {
    var Matched(token, email) := y.procs[pid];
    assert y.procs == map[pid := Matched(token, email)];
    if !gone {
      assert ProcOk(y.issued, y.granted, y.procs[pid]);
      UseOnce(y.store.values, y.procs, y.changes, y.granted, Change(token, email), pid);
      assert y.procs[pid := Clearing(token, email)] == map[pid := Clearing(token, email)];
    }
  }

  lemma ContinueSerial(y: System, pid: Pid, draw: string, gone: bool)
    requires Safe(y) && Serial(y) && pid in y.procs
    ensures Serial(Continue(y, pid, draw, gone))
  {
    var p := y.procs[pid];
    if p.Comparing? { GrantSerial(y, pid, draw, gone); }
    else if p.Matched? { ChangeSerial(y, pid, draw, gone); }
    else if p.Reading? { ReadSerial(y, pid, draw, gone); }
    else if p.Scanning? { ScanSerial(y, pid, draw, gone); }
    else if p.Hashing? { IssueSerial(y, pid, draw, gone); }
    else { OtherSerial(y, pid, draw, gone); }
  }

  /** A comparison more, when the record that was read still had an attempt left. */
  lemma OneMoreFits(comparisons: seq<nat>, b: Bucket, at: int, procs: Procs)
    requires AtMostFive(comparisons, map[]) && FitsRecord(b, comparisons) && Full(b)
    requires Judge(b, at).CompareWith? && b[OtpHash].salt < |comparisons|
    requires forall pid <- procs :: !procs[pid].Reading?
    ensures AtMostFive(comparisons[b[OtpHash].salt := comparisons[b[OtpHash].salt] + 1], procs)
  {
  }

  lemma CompareSerial(y: System, pid: Pid, draw: string, gone: bool)
    requires Safe(y) && Serial(y) && pid in y.procs && y.procs[pid].Reading?
    requires Judge(y.procs[pid].record, y.procs[pid].at).CompareWith?
    ensures Serial(Continue(y, pid, draw, gone))
  {
    var Reading(email, _, at, record) := y.procs[pid];
    var z := Continue(y, pid, draw, gone);
    OnlyCall(y, pid);
    assert RecordOk(y.issued, record, email) && FitsRecord(record, y.comparisons);
    OneMoreFits(y.comparisons, record, at, z.procs);
    TokensShrink(y.store.values, y.store.values, y.procs, z.procs, y.changes);
  }

  lemma ReadSerial(y: System, pid: Pid, draw: string, gone: bool)
    requires Safe(y) && Serial(y) && pid in y.procs && y.procs[pid].Reading?
    ensures Serial(Continue(y, pid, draw, gone))
  {
    if Judge(y.procs[pid].record, y.procs[pid].at).CompareWith? {
      CompareSerial(y, pid, draw, gone);
    } else {
      var z := Continue(y, pid, draw, gone);
      OnlyCall(y, pid);
      DelShrinks(y.store, OtpKey(y.procs[pid].email));
      TokensShrink(y.store.values, z.store.values, y.procs, z.procs, y.changes);
      SerialFinish(y, z);
    }
  }

  lemma ScanSerial(y: System, pid: Pid, draw: string, gone: bool)
    requires Safe(y) && Serial(y) && pid in y.procs && y.procs[pid].Scanning?
    ensures Serial(Continue(y, pid, draw, gone))
  {
    var Scanning(token, rest) := y.procs[pid];
    var z := Continue(y, pid, draw, gone);
    OnlyCall(y, pid);
    ScanKeeps(y, pid, draw, gone);
    TokensShrink(y.store.values, y.store.values, y.procs, z.procs, y.changes);
    if rest == [] { SerialFinish(y, z); } else { SerialMove(y, z, pid, z.procs[pid]); }
  }

  lemma ScanKeeps(y: System, pid: Pid, draw: string, gone: bool)
    requires Safe(y) && Serial(y) && pid in y.procs && y.procs[pid].Scanning? && y.procs == map[pid := y.procs[pid]]
    requires y.procs - {pid} == map[] && forall p: Proc :: y.procs[pid := p] == map[pid := p]
    ensures var z := Continue(y, pid, draw, gone);
            && z.store == y.store && z.changes == y.changes && z.comparisons == y.comparisons
            && (if y.procs[pid].rest == [] then z.procs == map[]
                else pid in z.procs && z.procs == map[pid := z.procs[pid]]
                     && (z.procs[pid].Scanning? || (z.procs[pid].Matched? && Uses(y.changes, z.procs[pid].token) == 0)))
  {
    var Scanning(token, rest) := y.procs[pid];
    if rest != [] && TokenKey(rest[0]) in y.store.values {
      assert Uses(y.changes, y.store.values[TokenKey(rest[0])]) == 0;
    }
  }

  /** What can be found only shrinks, the call that was using a token has dropped it, and what has matched is unused. */
  lemma TokensShrink(values: map<Key, string>, values': map<Key, string>, procs: Procs, procs': Procs,
                     changes: seq<Change>)
    requires TokensOnce(values, procs, changes)
    requires forall k <- values' :: k in values && values'[k] == values[k]
    requires forall k <- values', pid <- procs :: procs[pid].Clearing? ==> TokenKey(procs[pid].email) != k
    requires forall pid <- procs' :: procs'[pid].Matched? ==> Uses(changes, procs'[pid].token) == 0
    ensures TokensOnce(values', procs', changes)
  {
  }

  /** The only call moves on, to a stretch that is neither about to hash nor has read a record. */
  lemma SerialMove(y: System, z: System, pid: Pid, p: Proc)
    requires Serial(y) && pid in y.procs && z.procs == map[pid := p] && !p.Hashing? && !p.Reading?
    requires z.comparisons == y.comparisons && TokensOnce(z.store.values, z.procs, z.changes)
    ensures Serial(z)
  {
  }

  lemma SerialFinish(y: System, z: System)
    requires Serial(y) && z.procs == map[] && z.comparisons == y.comparisons
    requires TokensOnce(z.store.values, z.procs, z.changes)
    ensures Serial(z)
  {
  }

  lemma OnlyCall(y: System, pid: Pid)
    requires Serial(y) && pid in y.procs
    ensures y.procs == map[pid := y.procs[pid]] && y.procs - {pid} == map[]
    ensures forall p: Proc :: y.procs[pid := p] == map[pid := p]
  {
  }

  lemma OtherSerial(y: System, pid: Pid, draw: string, gone: bool)
    requires Safe(y) && Serial(y) && pid in y.procs
    requires var p := y.procs[pid]; p.Arming? || p.Granted? || p.Clearing?
    ensures Serial(Continue(y, pid, draw, gone))
  {
    var z := Continue(y, pid, draw, gone);
    OnlyCall(y, pid);
    if !y.procs[pid].Arming? {
      DelShrinks(y.store, if y.procs[pid].Granted? then OtpKey(y.procs[pid].email) else TokenKey(y.procs[pid].email));
    }
    TokensShrink(y.store.values, z.store.values, y.procs, map[], y.changes);
    SerialFinish(y, z);
  }

  lemma IssueSerial(y: System, pid: Pid, draw: string, gone: bool)
    requires Safe(y) && Serial(y) && pid in y.procs && y.procs[pid].Hashing?
    ensures Serial(Continue(y, pid, draw, gone))
  {
    var z := Continue(y, pid, draw, gone);
    OnlyCall(y, pid);
    TokensShrink(y.store.values, z.store.values, y.procs, z.procs, y.changes);
  }

  lemma ApplySerial(y: System, e: Event)
    requires Safe(y) && Counted(y.store.hashes, y.comparisons, y.procs) && Serial(y)
    requires Starts(e) ==> y.procs == map[]
    ensures Serial(Apply(y, e))
  {
    if Starts(e) {
      StartSerial(y, e);
    } else if e.Resume? && e.pid in y.procs {
      ContinueSerial(y, e.pid, e.draw, e.accountGone);
    }
  }

  lemma {:induction false} RunSerial(y: System, es: seq<Event>)
    requires Safe(y) && Counted(y.store.hashes, y.comparisons, y.procs) && Serial(y)
    requires OneAtATime(y, es)
    ensures Serial(Run(y, es))
    decreases |es|
  {
    if es != [] {
      ApplySafe(y, es[0]);
      ApplyCounted(y, es[0]);
      ApplySerial(y, es[0]);
      RunSerial(Apply(y, es[0]), es[1..]);
    }
  }

  // ---------- How often an OTP is compared, with calls interleaved ----------

  predicate Verifying(p: Proc) { p.Reading? || p.Comparing? || p.Granted? }

  function VerifyCalls(procs: Procs): set<Pid> { set pid <- procs | Verifying(procs[pid]) }

  /** At every moment of the run at most `k` verify calls are suspended. */
  predicate AtMost(y: System, es: seq<Event>, k: nat)
    decreases |es|
  {
    |VerifyCalls(y.procs)| <= k && (es == [] || AtMost(Apply(y, es[0]), es[1..], k))
  }

  /** The call has read a record that lets it compare the OTP with this salt. */
  predicate AboutTo(p: Proc, salt: nat) {
    p.Reading? &&
    match Judge(p.record, p.at)
    case CompareWith(hash) => hash.Hash? && hash.salt == salt
    case _ => false
  }

  function Waiting(procs: Procs, salt: nat): set<Pid> { set pid <- procs | AboutTo(procs[pid], salt) }

  /** The record of the OTP is there and has attempts left. */
  ghost predicate Open(hashes: map<Key, Bucket>, salt: nat) {
    exists k <- hashes :: OpenRecord(hashes[k], salt)
  }

  predicate OpenRecord(b: Bucket, salt: nat) {
    OtpHash in b && Full(b) && b[OtpHash].salt == salt && b[Attempts].n < MAX_ATTEMPTS
  }

  /** Once the record is closed only the calls that have read it before are still to compare. */
  ghost predicate Bounded(hashes: map<Key, Bucket>, comparisons: seq<nat>, procs: Procs, salt: nat, k: nat) {
    salt < |comparisons| ==> Open(hashes, salt) || comparisons[salt] + |Waiting(procs, salt)| <= MAX_ATTEMPTS - 1 + k
  }

  lemma SubsetSize(a: set<Pid>, b: set<Pid>)
    requires a <= b
    ensures |a| <= |b|
  {
    if a != {} {
      var x :| x in a;
      SubsetSize(a - {x}, b - {x});
    }
  }

  lemma WithinBound(hashes: map<Key, Bucket>, comparisons: seq<nat>, procs: Procs, salt: nat, k: nat)
    requires Counted(hashes, comparisons, procs) && Bounded(hashes, comparisons, procs, salt, k)
    requires |VerifyCalls(procs)| <= k && salt < |comparisons|
    ensures comparisons[salt] + |Waiting(procs, salt)| <= MAX_ATTEMPTS - 1 + k
  {
    if Open(hashes, salt) {
      var key :| key in hashes && OpenRecord(hashes[key], salt);
      assert CountedIn(hashes[key], comparisons, procs);
      assert InFlight(procs, salt) !! Waiting(procs, salt);
      SubsetSize(InFlight(procs, salt) + Waiting(procs, salt), VerifyCalls(procs));
    }
  }

  lemma WaitingAfter(procs: Procs, procs': Procs, pid: Pid, salt: nat)
    requires procs' - {pid} == procs - {pid}
    ensures |Waiting(procs', salt)| + Weight(pid in procs && AboutTo(procs[pid], salt))
         == |Waiting(procs, salt)| + Weight(pid in procs' && AboutTo(procs'[pid], salt))
  {
    forall q | q != pid ensures q in Waiting(procs, salt) <==> q in Waiting(procs', salt) {
      SameCall(procs, procs', pid, q);
    }
    CountAfter(Waiting(procs, salt), Waiting(procs', salt), pid);
  }

  /** A stretch that compares was waiting to; no stretch begins to wait. */
  lemma ContinueWaits(y: System, pid: Pid, draw: string, gone: bool, salt: nat)
    requires pid in y.procs && salt < |y.comparisons|
    ensures var z := Continue(y, pid, draw, gone);
            && z.procs - {pid} == y.procs - {pid} && !(pid in z.procs && z.procs[pid].Reading?)
            && salt < |z.comparisons|
            && z.comparisons[salt] == y.comparisons[salt] + Weight(AboutTo(y.procs[pid], salt))
  {
    ContinueCompares(y, pid, draw, gone, salt);
  }

  lemma ContinueCompares(y: System, pid: Pid, draw: string, gone: bool, salt: nat)
    requires pid in y.procs && salt < |y.comparisons|
    ensures var z := Continue(y, pid, draw, gone);
            && salt < |z.comparisons|
            && z.comparisons[salt] == y.comparisons[salt] + Weight(AboutTo(y.procs[pid], salt))
  {
  }

  lemma ContinueBounded(y: System, pid: Pid, draw: string, gone: bool, salt: nat, k: nat)
    requires pid in y.procs && Safe(y) && Counted(y.store.hashes, y.comparisons, y.procs)
    requires Bounded(y.store.hashes, y.comparisons, y.procs, salt, k) && |VerifyCalls(y.procs)| <= k
    ensures var z := Continue(y, pid, draw, gone);
            Bounded(z.store.hashes, z.comparisons, z.procs, salt, k)
  {
    var z := Continue(y, pid, draw, gone);
    if salt < |y.comparisons| {
      WithinBound(y.store.hashes, y.comparisons, y.procs, salt, k);
      ContinueWaits(y, pid, draw, gone, salt);
      WaitingAfter(y.procs, z.procs, pid, salt);
    } else if salt < |z.comparisons| {
      IssuedIsOpen(y, pid, draw, gone);
    }
  }

  /** A record just written has all its attempts. */
  lemma IssuedIsOpen(y: System, pid: Pid, draw: string, gone: bool)
    requires pid in y.procs && |Continue(y, pid, draw, gone).comparisons| > |y.comparisons| == |y.issued|
    ensures |Continue(y, pid, draw, gone).comparisons| == |y.comparisons| + 1
    ensures Open(Continue(y, pid, draw, gone).store.hashes, |y.comparisons|)
  {
    var Hashing(email, at, otp) := y.procs[pid];
    var z := Continue(y, pid, draw, gone);
    RecordReplaces(HGetAll(y.store, OtpKey(email)), otp, |y.issued|, at);
    assert OpenRecord(z.store.hashes[OtpKey(email)], |y.comparisons|);
  }

  /** A call only begins to wait on a record that has attempts left. */
  lemma VerifyBounded(y: System, email: string, otp: string, salt: nat, k: nat)
    requires Safe(y) && Bounded(y.store.hashes, y.comparisons, y.procs, salt, k)
    ensures var z := Apply(y, VerifyStart(email, otp));
            Bounded(z.store.hashes, z.comparisons, z.procs, salt, k)
  {
    var z, key := Apply(y, VerifyStart(email, otp)), OtpKey(email);
    var p := Reading(email, otp, y.store.now, HGetAll(y.store, key));
    assert z.procs - {y.nextPid} == y.procs - {y.nextPid};
    WaitingAfter(y.procs, z.procs, y.nextPid, salt);
    if AboutTo(p, salt) {
      assert key in y.store.hashes && RecordOk(y.issued, y.store.hashes[key], email);
      assert OpenRecord(y.store.hashes[key], salt);
    }
  }

  lemma OtherBounded(y: System, e: Event, salt: nat, k: nat)
    requires Safe(y) && Counted(y.store.hashes, y.comparisons, y.procs) && !e.VerifyStart? && !e.Resume?
    requires Bounded(y.store.hashes, y.comparisons, y.procs, salt, k) && |VerifyCalls(y.procs)| <= k
    ensures var z := Apply(y, e);
            Bounded(z.store.hashes, z.comparisons, z.procs, salt, k)
  {
    var z := Apply(y, e);
    assert z.comparisons == y.comparisons;
    assert z.procs - {y.nextPid} == y.procs - {y.nextPid};
    if salt < |y.comparisons| {
      WithinBound(y.store.hashes, y.comparisons, y.procs, salt, k);
      WaitingAfter(y.procs, z.procs, y.nextPid, salt);
    }
  }

  lemma {:induction false} RunBounded(y: System, es: seq<Event>, salt: nat, k: nat)
    requires Safe(y) && Counted(y.store.hashes, y.comparisons, y.procs) && AtMost(y, es, k)
    requires Bounded(y.store.hashes, y.comparisons, y.procs, salt, k)
    ensures salt < |Run(y, es).comparisons| ==> Run(y, es).comparisons[salt] <= MAX_ATTEMPTS - 1 + k
    decreases |es|
  {
    if es == [] {
      if salt < |y.comparisons| { WithinBound(y.store.hashes, y.comparisons, y.procs, salt, k); }
    } else {
      ApplySafe(y, es[0]);
      ApplyCounted(y, es[0]);
      match es[0] {
        case VerifyStart(email, otp) => VerifyBounded(y, email, otp, salt, k);
        case Resume(pid, draw, gone) => if pid in y.procs { ContinueBounded(y, pid, draw, gone, salt, k); }
        case _ => OtherBounded(y, es[0], salt, k);
      }
      RunBounded(Apply(y, es[0]), es[1..], salt, k);
    }
  }

  // ---------- Second uses of a token, with calls interleaved ----------

  ghost predicate BeingCleared(procs: Procs, token: string) {
    exists pid <- procs :: procs[pid].Clearing? && procs[pid].token == token
  }

  /** A token that is stored although it was used is about to be dropped by the call that used it. */
  ghost predicate Spent(values: map<Key, string>, procs: Procs, changes: seq<Change>) {
    && (forall k <- values :: Uses(changes, values[k]) > 0 ==> BeingCleared(procs, values[k]))
    && (forall pid <- procs :: procs[pid].Clearing? ==> Uses(changes, procs[pid].token) > 0)
  }

  /** Values that disappear, and calls that neither use a token nor have used one. */
  lemma SpentAfterIdle(values: map<Key, string>, values': map<Key, string>, procs: Procs, procs': Procs,
                       changes: seq<Change>, pid: Pid)
    requires Spent(values, procs, changes)
    requires forall k <- values' :: k in values && values'[k] == values[k]
    requires forall q <- procs | q != pid :: q in procs' && procs'[q] == procs[q]
    requires forall q <- procs' | q != pid :: q in procs
    requires (pid in procs ==> !procs[pid].Clearing?) && (pid in procs' ==> !procs'[pid].Clearing?)
    ensures Spent(values', procs', changes)
  {
    forall k <- values' | Uses(changes, values'[k]) > 0 ensures BeingCleared(procs', values'[k]) {
      assert BeingCleared(procs, values[k]);
      var q :| q in procs && procs[q].Clearing? && procs[q].token == values[k];
      assert procs'[q].Clearing?;
    }
  }

  lemma SpentAfterChange(values: map<Key, string>, procs: Procs, changes: seq<Change>, c: Change, pid: Pid)
    requires Spent(values, procs, changes) && pid in procs && !procs[pid].Clearing?
    ensures Spent(values, procs[pid := Clearing(c.token, c.email)], changes + [c])
  {
    var procs' := procs[pid := Clearing(c.token, c.email)];
    assert procs'[pid].Clearing? && procs'[pid].token == c.token;
    forall k <- values | Uses(changes + [c], values[k]) > 0 ensures BeingCleared(procs', values[k]) {
      UsesAppend(changes, c, values[k]);
      if values[k] != c.token {
        var q :| q in procs && procs[q].Clearing? && procs[q].token == values[k];
        assert procs'[q].Clearing?;
      }
    }
    forall q <- procs' | procs'[q].Clearing? ensures Uses(changes + [c], procs'[q].token) > 0 {
      UsesAppend(changes, c, procs'[q].token);
    }
  }

  /** The call that used a token has dropped it, and it was nowhere else. */
  lemma SpentAfterClear(values: map<Key, string>, granted: map<string, Grant>, procs: Procs, changes: seq<Change>,
                        pid: Pid)
    requires Spent(values, procs, changes) && ValuesOk(values, granted)
    requires pid in procs && procs[pid].Clearing? && ProcOk([], granted, procs[pid])
    ensures Spent(values - {TokenKey(procs[pid].email)}, procs - {pid}, changes)
  {
    var values', procs' := values - {TokenKey(procs[pid].email)}, procs - {pid};
    forall k <- values' | Uses(changes, values'[k]) > 0 ensures BeingCleared(procs', values'[k]) {
      var q :| q in procs && procs[q].Clearing? && procs[q].token == values[k];
      assert q != pid;
      assert procs'[q].Clearing?;
    }
  }

  lemma GrantSpent(y: System, pid: Pid, draw: string, gone: bool)
    requires Safe(y) && Spent(y.store.values, y.procs, y.changes) && pid in y.procs && y.procs[pid].Comparing?
    requires Matches(y.procs[pid].otp, y.procs[pid].hash) && draw !in y.granted
    ensures var z := Continue(y, pid, draw, gone);
            Spent(z.store.values, z.procs, z.changes)
  {
    var z := Continue(y, pid, draw, gone);
    UnusedIfNeverGranted(y.changes, y.granted, draw);
    SpentAfterIdle(y.store.values, y.store.values, y.procs, z.procs, y.changes, pid);
  }

  lemma ClearSpent(y: System, pid: Pid, draw: string, gone: bool)
    requires Safe(y) && Spent(y.store.values, y.procs, y.changes) && pid in y.procs && y.procs[pid].Clearing?
    ensures var z := Continue(y, pid, draw, gone);
            Spent(z.store.values, z.procs, z.changes)
  {
    assert ProcOk(y.issued, y.granted, y.procs[pid]);
    SpentAfterClear(y.store.values, y.granted, y.procs, y.changes, pid);
  }

  lemma QuietSpent(y: System, pid: Pid, draw: string, gone: bool)
    requires Spent(y.store.values, y.procs, y.changes) && pid in y.procs && Quiet(y.procs[pid], gone)
    ensures var z := Continue(y, pid, draw, gone);
            Spent(z.store.values, z.procs, z.changes)
  {
    var z := Continue(y, pid, draw, gone);
    QuietValues(y, pid, draw, gone);
    SpentAfterIdle(y.store.values, z.store.values, y.procs, z.procs, y.changes, pid);
  }

  lemma ContinueSpent(y: System, pid: Pid, draw: string, gone: bool)
    requires Safe(y) && Spent(y.store.values, y.procs, y.changes) && pid in y.procs
    ensures var z := Continue(y, pid, draw, gone);
            Spent(z.store.values, z.procs, z.changes)
  {
    var p := y.procs[pid];
    if Quiet(p, gone) {
      QuietSpent(y, pid, draw, gone);
    } else if p.Matched? {
      SpentAfterChange(y.store.values, y.procs, y.changes, Change(p.token, p.email), pid);
    } else if p.Clearing? {
      ClearSpent(y, pid, draw, gone);
    } else if draw !in y.granted {
      GrantSpent(y, pid, draw, gone);
    }
  }

  /** A stretch that neither grants nor uses a token. */
  predicate Quiet(p: Proc, gone: bool) {
    !(p.Comparing? && Matches(p.otp, p.hash)) && !(p.Matched? && !gone) && !p.Clearing?
  }

  lemma QuietValues(y: System, pid: Pid, draw: string, gone: bool)
    requires pid in y.procs && Quiet(y.procs[pid], gone)
    ensures var z := Continue(y, pid, draw, gone);
            z.changes == y.changes && forall k <- z.store.values ::
              k in y.store.values && z.store.values[k] == y.store.values[k]
  {
  }

  lemma OutsideSpent(y: System, e: Event)
    requires Safe(y) && Spent(y.store.values, y.procs, y.changes) && !e.Resume?
    ensures Spent(Apply(y, e).store.values, Apply(y, e).procs, Apply(y, e).changes)
  {
    var z := Apply(y, e);
    OutsideIsQuiet(y, e);
    SpentAfterIdle(y.store.values, z.store.values, y.procs, z.procs, y.changes, y.nextPid);
  }

  lemma OutsideIsQuiet(y: System, e: Event)
    requires !e.Resume?
    ensures var z := Apply(y, e);
            && z.changes == y.changes
            && (z.procs == y.procs || (y.nextPid in z.procs && !z.procs[y.nextPid].Clearing?
                                       && z.procs == y.procs[y.nextPid := z.procs[y.nextPid]]))
            && forall k <- z.store.values :: k in y.store.values && z.store.values[k] == y.store.values[k]
  {
  }

  lemma ApplySpent(y: System, e: Event)
    requires Safe(y) && Spent(y.store.values, y.procs, y.changes)
    ensures Spent(Apply(y, e).store.values, Apply(y, e).procs, Apply(y, e).changes)
  {
    if !e.Resume? {
      OutsideSpent(y, e);
    } else if e.pid in y.procs {
      ContinueSpent(y, e.pid, e.draw, e.accountGone);
    }
  }

  lemma {:induction false} RunSpent(y: System, es: seq<Event>)
    requires Safe(y) && Spent(y.store.values, y.procs, y.changes)
    ensures Safe(Run(y, es)) && Spent(Run(y, es).store.values, Run(y, es).procs, Run(y, es).changes)
    ensures y.changes <= Run(y, es).changes
    decreases |es|
  {
    if es != [] {
      ApplySafe(y, es[0]);
      ApplySpent(y, es[0]);
      RunSpent(Apply(y, es[0]), es[1..]);
      ChangesGrow(y, es[0]);
    }
  }

  lemma ChangesGrow(y: System, e: Event)
    ensures y.changes <= Apply(y, e).changes
  {
  }

  lemma {:induction false} UsesConcat(a: seq<Change>, b: seq<Change>, token: string)
    ensures Uses(a + b, token) == Uses(a, token) + Uses(b, token)
  {
    if b == [] {
      assert a + b == a;
    } else {
      var last := |b| - 1;
      assert a + b == a + b[..last] + [b[last]];
      UsesConcat(a, b[..last], token);
      UsesAppend(a + b[..last], b[last], token);
    }
  }

  /** The next step of this scan finds the token. */
  predicate FindsToken(y: System, pid: Pid, token: string, email: string) {
    && pid in y.procs && y.procs[pid].Scanning? && y.procs[pid].token == token
    && y.procs[pid].rest != [] && y.procs[pid].rest[0] == email
    && Get(y.store, TokenKey(email)) == Some(token)
  }

  lemma SecondUse(values: map<Key, string>, procs: Procs, before: seq<Change>, after: seq<Change>, c: Change)
    requires Spent(values, procs, before) && before <= after
    requires TokenKey(c.email) in values && values[TokenKey(c.email)] == c.token
    ensures Uses(after + [c], c.token) >= 2 <==> BeingCleared(procs, c.token) || Uses(after[|before|..], c.token) > 0
  {
    assert after == before + after[|before|..];
    UsesConcat(before, after[|before|..], c.token);
    UsesAppend(after, c, c.token);
  }

  lemma MatchStep(y: System, pid: Pid, token: string, email: string)
    requires FindsToken(y, pid, token, email)
    ensures Apply(y, Resume(pid, "", false)).changes == y.changes
  {
  }

  lemma ChangeStep(z: System, pid: Pid, token: string, email: string)
    requires pid in z.procs && z.procs[pid] == Matched(token, email)
    ensures Apply(z, Resume(pid, "", false)).changes == z.changes + [Change(token, email)]
  {
  }

  /**
    With calls interleaved at every await, a reset uses its token a second time exactly if another
    call was about to drop the token when it was found, or has used it since.
   */
  lemma SecondUseExactly(now: int, es: seq<Event>, y: System, pid: Pid, token: string, email: string, since: seq<Event>,
                         z: System)
    requires y == Run(Initial(now), es) && FindsToken(y, pid, token, email)
    requires z == Run(Apply(y, Resume(pid, "", false)), since)
    requires pid in z.procs && z.procs[pid] == Matched(token, email)
    ensures y.changes <= z.changes
    ensures Uses(Apply(z, Resume(pid, "", false)).changes, token) >= 2 <==>
              BeingCleared(y.procs, token) || Uses(z.changes[|y.changes|..], token) > 0
  {
    RunSpent(Initial(now), es);
    ApplySafe(y, Resume(pid, "", false));
    ApplySpent(y, Resume(pid, "", false));
    RunSpent(Apply(y, Resume(pid, "", false)), since);
    MatchStep(y, pid, token, email);
    ChangeStep(z, pid, token, email);
    SecondUse(y.store.values, y.procs, y.changes, z.changes, Change(token, email));
  }

  // ---------- The scan over the accounts, with an await at each ----------

  /** The token is stored for the account all along. */
  predicate StoredThroughout(y: System, es: seq<Event>, email: string, token: string)
    decreases |es|
  {
    Get(y.store, TokenKey(email)) == Some(token)
      && (es == [] || StoredThroughout(Apply(y, es[0]), es[1..], email, token))
  }

  /** The call still has the account before it, or has found it. */
  predicate OnTrack(procs: Procs, pid: Pid, token: string, email: string) {
    pid in procs &&
    match procs[pid]
    case Scanning(t, rest) => t == token && email in rest
    case Matched(t, e) => t == token && e == email
    case Clearing(t, e) => t == token && e == email
    case _ => false
  }

  lemma ScanStaysOnTrack(y: System, pid: Pid, draw: string, gone: bool, token: string, email: string)
    requires ValuesOk(y.store.values, y.granted)
    requires pid in y.procs && y.procs[pid].Scanning? && y.procs[pid].token == token && email in y.procs[pid].rest
    requires Get(y.store, TokenKey(email)) == Some(token)
    ensures OnTrack(Continue(y, pid, draw, gone).procs, pid, token, email)
  {
    var rest := y.procs[pid].rest;
    if Get(y.store, TokenKey(rest[0])) == Some(token) {
      KeysNeverCollide(email, y.granted[token].email);
      KeysNeverCollide(rest[0], y.granted[token].email);
    } else {
      assert email in rest[1..];
    }
  }

  /** A suspended call only moves when it is resumed. */
  lemma OthersStay(y: System, e: Event, pid: Pid)
    requires pid in y.procs && pid < y.nextPid && !(e.Resume? && e.pid == pid)
    ensures pid in Apply(y, e).procs && Apply(y, e).procs[pid] == y.procs[pid]
  {
    if e.Resume? && e.pid in y.procs { OthersStayWhileContinuing(y, e.pid, e.draw, e.accountGone, pid); }
  }

  lemma OthersStayWhileContinuing(y: System, q: Pid, draw: string, gone: bool, pid: Pid)
    requires pid in y.procs && q in y.procs && pid != q
    ensures var z := Continue(y, q, draw, gone);
            pid in z.procs && z.procs[pid] == y.procs[pid]
  {
  }

  lemma OnTrackStays(y: System, e: Event, pid: Pid, token: string, email: string)
    requires Safe(y) && OnTrack(y.procs, pid, token, email)
    requires Get(y.store, TokenKey(email)) == Some(token) && Get(Apply(y, e).store, TokenKey(email)) == Some(token)
    ensures OnTrack(Apply(y, e).procs, pid, token, email)
  {
    if !(e.Resume? && e.pid == pid) {
      OthersStay(y, e, pid);
    } else if y.procs[pid].Scanning? {
      ScanStaysOnTrack(y, pid, e.draw, e.accountGone, token, email);
    }
  }

  lemma {:induction false} RunOnTrack(y: System, es: seq<Event>, pid: Pid, token: string, email: string)
    requires Safe(y) && OnTrack(y.procs, pid, token, email) && StoredThroughout(y, es, email, token)
    ensures OnTrack(Run(y, es).procs, pid, token, email)
    decreases |es|
  {
    if es != [] {
      ApplySafe(y, es[0]);
      OnTrackStays(y, es[0], pid, token, email);
      RunOnTrack(Apply(y, es[0]), es[1..], pid, token, email);
    }
  }

  /**
    With an await at each account and anything in between, a scan that has the account of the token
    on its list does not pass it by while the token is stored, and matches no other account.
   */
  lemma ScanFindsHolder(now: int, es: seq<Event>, token: string, accounts: seq<string>, email: string,
                        since: seq<Event>)
    requires email in accounts
    requires StoredThroughout(Apply(Run(Initial(now), es), ResetStart(token, accounts)), since, email, token)
    ensures var y := Run(Initial(now), es);
            OnTrack(Run(Apply(y, ResetStart(token, accounts)), since).procs, y.nextPid, token, email)
  {
    RunSafe(Initial(now), es);
    var y := Run(Initial(now), es);
    ApplySafe(y, ResetStart(token, accounts));
    RunOnTrack(Apply(y, ResetStart(token, accounts)), since, y.nextPid, token, email);
  }

  // ---------- How long a token lives ----------

  /** Every stored token has the deadline it was granted with. */
  ghost predicate DeadlinesOk(values: map<Key, string>, timers: map<Key, TimerId>, pending: map<TimerId, Timeout>,
                              granted: map<string, Grant>)
  {
    forall k <- values ::
      && values[k] in granted && k in timers && timers[k] in pending
      && pending[timers[k]].due == granted[values[k]].at + Delay(TOKEN_TTL_SECONDS)
  }

  ghost predicate Dated(s: Store, granted: map<string, Grant>) {
    DeadlinesOk(s.values, s.timers, s.pending, granted)
  }

  lemma DatedAbs(s: Store, granted: map<string, Grant>)
    requires TtlStore.Inv(s)
    ensures Dated(s, granted) <==>
            forall k <- Abs(s) ::
                Abs(s)[k].value in granted
                  && Abs(s)[k].deadline == granted[Abs(s)[k].value].at + Delay(TOKEN_TTL_SECONDS)
  {
    assert forall k <- s.values :: k in Abs(s);
  }

  lemma GrantDeadlines(s: Store, granted: map<string, Grant>, email: string, token: string, g: Grant)
    requires TtlStore.Inv(s) && Dated(s, granted) && token !in granted && g.at == s.now
    ensures Dated(SetEx(s, TokenKey(email), TOKEN_TTL_SECONDS, token), granted[token := g])
  {
    var s' := SetEx(s, TokenKey(email), TOKEN_TTL_SECONDS, token);
    AbsSetEx(s, TokenKey(email), TOKEN_TTL_SECONDS, token);
    DatedAbs(s, granted);
    DatedAbs(s', granted[token := g]);
  }

  lemma DelDeadlines(s: Store, granted: map<string, Grant>, k: Key)
    requires TtlStore.Inv(s) && Dated(s, granted)
    ensures Dated(Del(s, k), granted)
  {
    AbsDel(s, k);
    DatedAbs(s, granted);
    DatedAbs(Del(s, k), granted);
  }

  lemma ArmDeadlines(s: Store, granted: map<string, Grant>, k: Key)
    requires TtlStore.Inv(s) && Dated(s, granted) && k !in s.values
    ensures Dated(Expire(s, k, OTP_TTL_SECONDS), granted)
  {
    AbsExpire(s, k, OTP_TTL_SECONDS);
    DatedAbs(s, granted);
    DatedAbs(Expire(s, k, OTP_TTL_SECONDS), granted);
  }

  lemma ComparedDeadlines(y: System, z: System, pid: Pid, draw: string, gone: bool)
    requires Safe(y) && Dated(y.store, y.granted) && pid in y.procs
        && y.procs[pid].Comparing? && z == Continue(y, pid, draw, gone)
    ensures Dated(z.store, z.granted)
  {
    var Comparing(email, otp, hash, readAt) := y.procs[pid];
    if Matches(otp, hash) && draw !in y.granted {
      GrantDeadlines(y.store, y.granted, email, draw, Grant(email, hash.salt, otp, readAt, y.store.now));
    }
  }

  lemma DropDeadlines(y: System, z: System, pid: Pid, draw: string, gone: bool)
    requires Safe(y) && Dated(y.store, y.granted) && pid in y.procs && z == Continue(y, pid, draw, gone)
    requires var p := y.procs[pid]; p.Reading? || p.Granted? || p.Matched? || p.Clearing?
    ensures Dated(z.store, z.granted)
  {
    var p := y.procs[pid];
    DelDeadlines(y.store, y.granted, if p.Reading? || p.Granted? then OtpKey(p.email) else TokenKey(p.email));
  }

  lemma ContinueDeadlines(y: System, z: System, pid: Pid, draw: string, gone: bool)
    requires Safe(y) && Dated(y.store, y.granted) && pid in y.procs && z == Continue(y, pid, draw, gone)
    ensures Dated(z.store, z.granted)
  {
    match y.procs[pid]
    case Hashing(_, _, _) =>
    case Arming(email) =>
      OtpKeyHoldsNoValue(y, email);
      ArmDeadlines(y.store, y.granted, OtpKey(email));
    case Comparing(_, _, _, _) => ComparedDeadlines(y, z, pid, draw, gone);
    case Scanning(_, _) =>
    case _ => DropDeadlines(y, z, pid, draw, gone);
  }

  lemma OtpKeyHoldsNoValue(y: System, email: string)
    requires Safe(y)
    ensures OtpKey(email) !in y.store.values
  {
    if OtpKey(email) in y.store.values {
      KeysNeverCollide(email, y.granted[y.store.values[OtpKey(email)]].email);
    }
  }

  lemma FireDeadlines(s: Store, granted: map<string, Grant>, id: TimerId)
    requires TtlStore.Inv(s) && Dated(s, granted) && Due(s, id)
    ensures Dated(Fire(s, id), granted)
  {
    AbsFire(s, id);
    DatedAbs(s, granted);
    DatedAbs(Fire(s, id), granted);
  }

  lemma ApplyDeadlines(y: System, e: Event)
    requires Safe(y) && Dated(y.store, y.granted)
    ensures Dated(Apply(y, e).store, Apply(y, e).granted)
  {
    match e
    case Resume(pid, draw, gone) => if pid in y.procs { ContinueDeadlines(y, Apply(y, e), pid, draw, gone); }
    case FireTimer(id) => if Due(y.store, id) { FireDeadlines(y.store, y.granted, id); }
    case _ =>
  }

  lemma {:induction false} RunDeadlines(y: System, es: seq<Event>)
    requires Safe(y) && Dated(y.store, y.granted)
    ensures Safe(Run(y, es)) && Dated(Run(y, es).store, Run(y, es).granted)
    decreases |es|
  {
    if es != [] {
      ApplySafe(y, es[0]);
      ApplyDeadlines(y, es[0]);
      RunDeadlines(Apply(y, es[0]), es[1..]);
    }
  }

  // ---------- Main results ----------

  /** What holds after every run, with calls interleaved at every await. */
  lemma EveryInterleaving(now: int, es: seq<Event>)
    ensures var y := Run(Initial(now), es);
            && (forall k <- y.store.hashes :: IsOtpKey(k) && k !in y.store.values)
            && (forall k <- y.store.values :: IsTokenKey(k) && k in y.store.timers)
            && (forall k <- y.store.hashes ::
                  if OtpHash in y.store.hashes[k] then Armed(y.store.timers, y.procs, k)
                  else forall t :: Judge(y.store.hashes[k], t) == Refuse)
            && Counted(y.store.hashes, y.comparisons, y.procs)
  {
    RunCounted(Initial(now), es);
    var y := Run(Initial(now), es);
    forall k <- y.store.values ensures IsTokenKey(k) && !IsOtpKey(k) {
      var e := y.granted[y.store.values[k]].email;
      KeysNeverCollide(e, e);
    }
  }

  /**
    Every password change goes back to an OTP that was issued for that account and presented within its
    ten minutes.
   */
  lemma ChangeGoesBackToOtp(now: int, es: seq<Event>, c: Change)
    requires c in Run(Initial(now), es).changes
    ensures var y := Run(Initial(now), es);
            && c.token in y.granted
            && y.granted[c.token].email == c.email
            && GrantedFor(y.granted[c.token], y.issued)
  {
    RunSafe(Initial(now), es);
  }

  /** A token that can still be found was granted less than fifteen minutes ago, unless its timeout is overdue. */
  lemma TokenLifetime(now: int, es: seq<Event>, email: string, token: string)
    requires Get(Run(Initial(now), es).store, TokenKey(email)) == Some(token)
    ensures var y := Run(Initial(now), es);
            token in y.granted && (y.store.now < y.granted[token].at + 900_000 || Overdue(y.store, TokenKey(email)))
  {
    RunDeadlines(Initial(now), es);
    var y := Run(Initial(now), es);
  }

  // ---------- What each stretch answers ----------

  /** The account has a record with an OTP, and this is the number of that OTP. */
  predicate HasOtp(hashes: map<Key, Bucket>, email: string) {
    OtpKey(email) in hashes && OtpHash in hashes[OtpKey(email)] && hashes[OtpKey(email)][OtpHash].Hash?
  }

  function OtpOf(hashes: map<Key, Bucket>, email: string): nat
    requires HasOtp(hashes, email)
  {
    hashes[OtpKey(email)][OtpHash].salt
  }

  /** The account has an OTP that was requested less than a minute ago. */
  predicate OtpOfLastMinute(y: System, email: string) {
    && HasOtp(y.store.hashes, email) && OtpOf(y.store.hashes, email) < |y.issued|
    && y.store.now < y.issued[OtpOf(y.store.hashes, email)].at + 60_000
  }

  /** In every reachable state a request leads to an OTP exactly for an account without one of the last minute. */
  lemma RequestIssuesExactly(now: int, es: seq<Event>, email: string, registered: bool, otp: string)
    ensures var y := Run(Initial(now), es);
            var z := Apply(y, RequestStart(email, registered, otp));
            && (HasOtp(y.store.hashes, email) ==> OtpOf(y.store.hashes, email) < |y.issued|)
            && z == if registered && !OtpOfLastMinute(y, email)
                    then y.(procs := y.procs[y.nextPid := Hashing(email, y.store.now, otp)], nextPid := y.nextPid + 1)
                    else y
  {
    RunSafe(Initial(now), es);
    var y := Run(Initial(now), es);
    if OtpKey(email) in y.store.hashes {
      assert OtpEmail(OtpKey(email)) == email;
      assert RecordOk(y.issued, y.store.hashes[OtpKey(email)], email);
    }
  }

  /** What a verify call that has read a record of an OTP makes of it. */
  predicate ReadAnswered(y: System, z: System, pid: Pid, email: string, otp: string, at: int, record: Bucket)
    requires OtpHash in record && record[OtpHash].Hash? && record[OtpHash].salt < |y.issued| && HasNum(record, Attempts)
  {
    var salt := record[OtpHash].salt;
    if at <= y.issued[salt].at + 600_000 && record[Attempts].n < 5 then
      z.procs == y.procs[pid := Comparing(email, otp, Hash(y.issued[salt].otp, salt), at)] && z.store == y.store
    else
      && z.procs == y.procs - {pid} && z.store.values == y.store.values
      && z.store.hashes == y.store.hashes - {OtpKey(email)}
  }

  /**
    In every reachable state: a verify call that has read a record goes on to compare with the OTP of
    that record exactly if it is at most ten minutes old and has been missed less than five times.
    Otherwise the record is dropped and the call is over. Without an OTP the call is just over.
   */
  lemma ReadAnsweredExactly(now: int, es: seq<Event>, pid: Pid, draw: string, gone: bool)
    requires pid in Run(Initial(now), es).procs && Run(Initial(now), es).procs[pid].Reading?
    ensures var y := Run(Initial(now), es);
            var z, Reading(email, otp, at, record) := Apply(y, Resume(pid, draw, gone)), y.procs[pid];
            if OtpHash !in record then z == y.(procs := y.procs - {pid})
            else
              && record[OtpHash].Hash? && record[OtpHash].salt < |y.issued| && HasNum(record, Attempts)
              && ReadAnswered(y, z, pid, email, otp, at, record)
  {
    RunSafe(Initial(now), es);
    var y := Run(Initial(now), es);
    var Reading(email, otp, at, record) := y.procs[pid];
    assert RecordOk(y.issued, record, email);
    OtpKeyHoldsNoValue(y, email);
    ReadAnsweredStep(y, pid, draw, gone);
  }

  lemma ReadAnsweredStep(y: System, pid: Pid, draw: string, gone: bool)
    requires pid in y.procs && y.procs[pid].Reading? && RecordOk(y.issued, y.procs[pid].record, y.procs[pid].email)
    requires OtpKey(y.procs[pid].email) !in y.store.values
    ensures var z, Reading(email, otp, at, record) := Continue(y, pid, draw, gone), y.procs[pid];
            if OtpHash !in record then z == y.(procs := y.procs - {pid})
            else ReadAnswered(y, z, pid, email, otp, at, record)
  {
    var Reading(email, otp, at, record) := y.procs[pid];
    DelShrinks(y.store, OtpKey(email));
  }

  /** A comparison: the right OTP stores the drawn token for the account, any other is counted in its record. */
  lemma ComparedExactly(y: System, pid: Pid, draw: string, gone: bool)
    requires pid in y.procs && y.procs[pid].Comparing? && y.procs[pid].hash.Hash? && draw !in y.granted
    ensures var z, Comparing(email, otp, hash, _) := Continue(y, pid, draw, gone), y.procs[pid];
            if otp == hash.secret then
              && z.procs == y.procs[pid := Granted(email, hash.salt)]
              && z.store.values == y.store.values[TokenKey(email) := draw] && z.store.hashes == y.store.hashes
            else
              && z.procs == y.procs - {pid} && z.store.values == y.store.values
              && forall k, f ::
                   if k == OtpKey(email) && f == Attempts
                   then Counts(FieldAt(y.store, k, f), 1, FieldAt(z.store, k, f))
                   else FieldAt(z.store, k, f) == FieldAt(y.store, k, f)
  {
    var z := Continue(y, pid, draw, gone);
    var Comparing(email, otp, hash, _) := y.procs[pid];
    if otp == hash.secret {
      SetExIs(y.store, TokenKey(email), TOKEN_TTL_SECONDS, draw);
    } else {
      assert z.store == HIncrBy(y.store, OtpKey(email), Attempts, 1);
      forall k, f
        ensures if k == OtpKey(email) && f == Attempts
                then Counts(FieldAt(y.store, k, f), 1, FieldAt(z.store, k, f))
                else FieldAt(z.store, k, f) == FieldAt(y.store, k, f)
      {
        FieldIncremented(y.store, OtpKey(email), Attempts, 1, k, f);
      }
    }
  }

  /** A reset that has found its account changes the password, or drops the token if the account is gone. */
  lemma MatchedExactly(y: System, pid: Pid, draw: string, gone: bool)
    requires pid in y.procs && y.procs[pid].Matched?
    ensures var z, Matched(token, email) := Continue(y, pid, draw, gone), y.procs[pid];
            if gone then z.changes == y.changes && z.procs == y.procs - {pid}
                && z.store.values == y.store.values - {TokenKey(email)}
            else
              && z.changes == y.changes + [Change(token, email)] && z.store == y.store
              && z.procs == y.procs[pid := Clearing(token, email)]
  {
    DelShrinks(y.store, TokenKey(y.procs[pid].email));
  }

  /** The two calls of an account holder who uses the OTP sent to him. */
  function RequestEvents(y: System, email: string, otp: string): seq<Event> {
    [RequestStart(email, true, otp), Resume(y.nextPid, "", false), Resume(y.nextPid, "", false)]
  }

  function VerifyEvents(pid: Pid, email: string, otp: string, draw: string): seq<Event> {
    [VerifyStart(email, otp), Resume(pid, "", false), Resume(pid, draw, false), Resume(pid, "", false)]
  }

  lemma Run1(y: System, e: Event)
    ensures Run(y, [e]) == Apply(y, e)
  {
    assert [e][1..] == [];
    assert Run(Apply(y, e), []) == Apply(y, e);
  }

  /** A request that is not refused leaves its OTP in the record. */
  lemma RequestRuns(y: System, email: string, otp: string)
    requires !CoolingDown(HGetAll(y.store, OtpKey(email)), y.store.now)
    ensures var z := Run(y, RequestEvents(y, email, otp));
            && z.procs == y.procs - {y.nextPid} && z.nextPid == y.nextPid + 1 && z.granted == y.granted
            && z.store.now == y.store.now
            && OtpKey(email) in z.store.hashes
            && z.store.hashes[OtpKey(email)] == OtpRecord(otp, |y.issued|, y.store.now)
  {
    var p := y.nextPid;
    var e1, e2 := RequestStart(email, true, otp), Resume(p, "", false);
    var y1 := Apply(y, e1);
    assert y1.procs == y.procs[p := Hashing(email, y.store.now, otp)];
    RecordReplaces(HGetAll(y.store, OtpKey(email)), otp, |y.issued|, y.store.now);
    var y2 := Apply(y1, e2);
    assert y2.procs == y1.procs[p := Arming(email)];
    RescheduleIs(y2.store, OtpKey(email), DropAll, OTP_TTL_SECONDS);
    assert y2.procs - {p} == y.procs - {p};
    Run3(y, e1, e2, e2);
  }

  lemma Run3(y: System, a: Event, b: Event, c: Event)
    ensures Run(y, [a, b, c]) == Apply(Apply(Apply(y, a), b), c)
  {
    assert [a, b, c][1..] == [b, c] && [b, c][1..] == [c];
    Run1(Apply(Apply(y, a), b), c);
    assert Run(Apply(y, a), [b, c]) == Run(Apply(Apply(y, a), b), [c]);
  }

  lemma GoesOn(y: System, p: Pid, email: string, otp: string, readAt: int, salt: nat, at: int)
    requires p in y.procs && y.procs[p] == Reading(email, otp, readAt, OtpRecord(otp, salt, at))
        && readAt <= at + 600_000
    ensures var z := Continue(y, p, "", false);
            && z.procs == y.procs[p := Comparing(email, otp, Hash(otp, salt), readAt)]
            && z.store == y.store && z.granted == y.granted
  {
  }

  lemma GrantsAndDrops(y: System, p: Pid, email: string, otp: string, salt: nat, readAt: int, draw: string)
    requires p in y.procs && y.procs[p] == Comparing(email, otp, Hash(otp, salt), readAt) && draw !in y.granted
    ensures var z := Continue(y, p, draw, false);
            && z.procs == y.procs[p := Granted(email, salt)] && draw in z.granted && z.granted[draw].email == email
            && Continue(z, p, "", false).procs == y.procs - {p} && Continue(z, p, "", false).granted == z.granted
            && Get(Continue(z, p, "", false).store, TokenKey(email)) == Some(draw)
            && OtpKey(email) !in Continue(z, p, "", false).store.hashes
  {
    var z := Continue(y, p, draw, false);
    ComparedExactly(y, p, draw, false);
    DelShrinks(z.store, OtpKey(email));
    KeysNeverCollide(email, email);
    assert y.procs[p := Granted(email, salt)] - {p} == y.procs - {p};
  }

  /** The right OTP within ten minutes leaves the drawn token stored and no record. */
  lemma VerifyRuns(y: System, email: string, otp: string, salt: nat, at: int, draw: string)
    requires OtpKey(email) in y.store.hashes && y.store.hashes[OtpKey(email)] == OtpRecord(otp, salt, at)
    requires y.store.now <= at + 600_000 && draw !in y.granted
    ensures var z := Run(y, VerifyEvents(y.nextPid, email, otp, draw));
            && z.procs == y.procs - {y.nextPid} && draw in z.granted && z.granted[draw].email == email
            && Get(z.store, TokenKey(email)) == Some(draw) && OtpKey(email) !in z.store.hashes
  {
    var p := y.nextPid;
    var y1 := Apply(y, VerifyStart(email, otp));
    GoesOn(y1, p, email, otp, y.store.now, salt, at);
    var y2 := Apply(y1, Resume(p, "", false));
    GrantsAndDrops(y2, p, email, otp, salt, y.store.now, draw);
    Run4(y, VerifyStart(email, otp), Resume(p, "", false), Resume(p, draw, false), Resume(p, "", false));
    assert y2.procs - {p} == y.procs - {p};
  }

  lemma Run4(y: System, a: Event, b: Event, c: Event, d: Event)
    ensures Run(y, [a, b, c, d]) == Apply(Apply(Apply(Apply(y, a), b), c), d)
  {
    assert [a, b, c, d][1..] == [b, c, d] && [b, c, d][1..] == [c, d] && [c, d][1..] == [d];
    Run1(Apply(Apply(Apply(y, a), b), c), d);
    assert Run(Apply(Apply(y, a), b), [c, d]) == Run(Apply(Apply(Apply(y, a), b), c), [d]);
    assert Run(Apply(y, a), [b, c, d]) == Run(Apply(Apply(y, a), b), [c, d]);
  }

  /**
    From every reachable state, whatever calls are suspended: an account without an OTP of the last
    minute requests one and presents it at most ten minutes later. The drawn token is then stored for
    the account and the record is gone.
   */
  lemma RightOtpGrantsToken(now: int, es: seq<Event>, y: System, email: string, otp: string, ms: nat, draw: string)
    requires y == Run(Initial(now), es) && draw !in y.granted && ms <= 600_000
    requires !OtpOfLastMinute(y, email)
    ensures HoldsToken(y, Run(RequestedAndWaited(y, email, otp, ms), VerifyEvents(y.nextPid + 1, email, otp, draw)),
        email, draw)
  {
    RunSafe(Initial(now), es);
    RequestIssuesExactly(now, es, email, true, otp);
    NotCooling(y, email, otp);
    RequestThenVerify(y, RequestedAndWaited(y, email, otp, ms), email, otp, ms, draw);
  }

  function RequestedAndWaited(y: System, email: string, otp: string, ms: nat): System {
    Apply(Run(y, RequestEvents(y, email, otp)), Tick(ms))
  }

  /** The drawn token is stored for the account, its record is gone, and no other call has moved. */
  predicate HoldsToken(y: System, z: System, email: string, draw: string) {
    && Get(z.store, TokenKey(email)) == Some(draw) && OtpKey(email) !in z.store.hashes
    && z.procs == y.procs && draw in z.granted && z.granted[draw].email == email
  }

  lemma RequestThenVerify(y: System, w: System, email: string, otp: string, ms: nat, draw: string)
    requires !CoolingDown(HGetAll(y.store, OtpKey(email)), y.store.now) && forall q <- y.procs :: q < y.nextPid
    requires draw !in y.granted && ms <= 600_000 && w == RequestedAndWaited(y, email, otp, ms)
    ensures HoldsToken(y, Run(w, VerifyEvents(y.nextPid + 1, email, otp, draw)), email, draw)
  {
    Requested(y, w, email, otp, ms);
    VerifyRuns(w, email, otp, |y.issued|, y.store.now, draw);
  }

  lemma Requested(y: System, w: System, email: string, otp: string, ms: nat)
    requires !CoolingDown(HGetAll(y.store, OtpKey(email)), y.store.now) && forall q <- y.procs :: q < y.nextPid
    requires w == RequestedAndWaited(y, email, otp, ms)
    ensures w.procs == y.procs && w.procs - {y.nextPid + 1} == y.procs && w.nextPid == y.nextPid + 1
    ensures w.granted == y.granted && w.store.now == y.store.now + ms && OtpKey(email) in w.store.hashes
    ensures w.store.hashes[OtpKey(email)] == OtpRecord(otp, |y.issued|, y.store.now)
  {
    RequestRuns(y, email, otp);
    NeitherIsLeft(y.procs, y.nextPid);
  }

  lemma NeitherIsLeft(procs: Procs, p: Pid)
    requires forall q <- procs :: q < p
    ensures procs - {p} == procs && procs - {p} - {p + 1} == procs
  {
  }

  lemma NotCooling(y: System, email: string, otp: string)
    requires Apply(y, RequestStart(email, true, otp)).nextPid != y.nextPid
    ensures !CoolingDown(HGetAll(y.store, OtpKey(email)), y.store.now)
  {
  }

  function Resumes(p: Pid, n: nat): seq<Event> { if n == 0 then [] else [Resume(p, "", false)] + Resumes(p, n - 1) }

  /** A scan that nothing disturbs gets to the first account holding the token. */
  lemma {:induction false} ScanRuns(y: System, p: Pid, token: string, rest: seq<string>, i: nat)
    requires p in y.procs && y.procs[p] == Scanning(token, rest) && i < |rest|
    requires Get(y.store, TokenKey(rest[i])) == Some(token)
    requires forall j | 0 <= j < i :: Get(y.store, TokenKey(rest[j])) != Some(token)
    ensures Run(y, Resumes(p, i + 1)) == y.(procs := y.procs[p := Matched(token, rest[i])])
    decreases i
  {
    var e := Resume(p, "", false);
    assert Resumes(p, i + 1)[1..] == Resumes(p, i);
    if i == 0 {
      assert Apply(y, e) == Goto(y, p, Matched(token, rest[0]));
      assert Run(Apply(y, e), []) == Apply(y, e);
    } else {
      assert Apply(y, e) == Goto(y, p, Scanning(token, rest[1..]));
      ScanRuns(Apply(y, e), p, token, rest[1..], i - 1);
      assert y.procs[p := Scanning(token, rest[1..])][p := Matched(token, rest[i])] ==
          y.procs[p := Matched(token, rest[i])];
    }
  }

  /**
    From every reachable state: a reset that nothing disturbs, over a list with the account that
    holds the token, finds that account, changes its password and drops the token.
   */
  lemma RightTokenChangesPassword(now: int, es: seq<Event>, y: System, token: string, accounts: seq<string>, i: nat,
                                  found: System)
    requires y == Run(Initial(now), es) && i < |accounts| && Get(y.store, TokenKey(accounts[i])) == Some(token)
    requires forall j | 0 <= j < i :: accounts[j] != accounts[i]
    requires found == Run(Apply(y, ResetStart(token, accounts)), Resumes(y.nextPid, i + 1))
    ensures Changed(y, Apply(Apply(found, Resume(y.nextPid, "", false)), Resume(y.nextPid, "", false)), token,
        accounts[i])
  {
    RunSafe(Initial(now), es);
    FirstHolder(y, token, accounts, i);
    ResetFinds(y, token, accounts, i, found);
    FoundChanges(y, found, y.nextPid, token, accounts[i]);
  }

  lemma ResetFinds(y: System, token: string, accounts: seq<string>, i: nat, found: System)
    requires i < |accounts| && Get(y.store, TokenKey(accounts[i])) == Some(token)
    requires forall j | 0 <= j < i :: Get(y.store, TokenKey(accounts[j])) != Some(token)
    requires found == Run(Apply(y, ResetStart(token, accounts)), Resumes(y.nextPid, i + 1))
    ensures found.procs == y.procs[y.nextPid := Matched(token, accounts[i])] && found.changes == y.changes
  {
    var w := Apply(y, ResetStart(token, accounts));
    assert w.procs == y.procs[y.nextPid := Scanning(token, accounts)] && w.store == y.store;
    ScanRuns(w, y.nextPid, token, accounts, i);
    assert w.procs[y.nextPid := Matched(token, accounts[i])] == y.procs[y.nextPid := Matched(token, accounts[i])];
  }

  /** The password of the account has changed, its token is gone, and no other call has moved. */
  predicate Changed(y: System, z: System, token: string, email: string) {
    z.changes == y.changes + [Change(token, email)] && TokenKey(email) !in z.store.values && z.procs == y.procs
  }

  lemma OneHolder(values: map<Key, string>, granted: map<string, Grant>, token: string, a: string, b: string)
    requires ValuesOk(values, granted)
    requires TokenKey(a) in values && values[TokenKey(a)] == token
        && TokenKey(b) in values && values[TokenKey(b)] == token
    ensures a == b
  {
    KeysNeverCollide(a, b);
  }

  lemma FirstHolder(y: System, token: string, accounts: seq<string>, i: nat)
    requires ValuesOk(y.store.values, y.granted)
    requires i < |accounts| && Get(y.store, TokenKey(accounts[i])) == Some(token)
    requires forall j | 0 <= j < i :: accounts[j] != accounts[i]
    ensures forall j | 0 <= j < i :: Get(y.store, TokenKey(accounts[j])) != Some(token)
  {
    forall j | 0 <= j < i ensures Get(y.store, TokenKey(accounts[j])) != Some(token) {
      if Get(y.store, TokenKey(accounts[j])) == Some(token) {
        OneHolder(y.store.values, y.granted, token, accounts[j], accounts[i]);
      }
    }
  }

  lemma FoundChanges(y: System, found: System, p: Pid, token: string, email: string)
    requires p !in y.procs && found.procs == y.procs[p := Matched(token, email)] && found.changes == y.changes
    ensures Changed(y, Apply(Apply(found, Resume(p, "", false)), Resume(p, "", false)), token, email)
  {
    MatchedExactly(found, p, "", false);
    DelShrinks(found.store, TokenKey(email));
    assert found.procs[p := Clearing(token, email)] - {p} == y.procs;
  }

  /** The call that goes on drops the token of the account, or replaces it. */
  predicate Drops(p: Proc, email: string, isNew: bool, gone: bool) {
    match p
    case Clearing(_, m) => m == email
    case Matched(_, m) => m == email && gone
    case Comparing(m, otp, hash, _) => m == email && hash.Hash? && otp == hash.secret && isNew
    case _ => false
  }

  lemma ContinueOnToken(y: System, pid: Pid, draw: string, gone: bool, email: string)
    requires pid in y.procs && !Drops(y.procs[pid], email, draw !in y.granted, gone)
    ensures Get(Continue(y, pid, draw, gone).store, TokenKey(email)) == Get(y.store, TokenKey(email))
  {
    var p := y.procs[pid];
    if p.Reading? || p.Granted? || p.Matched? || p.Clearing? {
      KeysNeverCollide(p.email, email);
      DelShrinks(y.store, OtpKey(p.email));
      DelShrinks(y.store, TokenKey(p.email));
    } else if p.Comparing? {
      KeysNeverCollide(p.email, email);
      SetExIs(y.store, TokenKey(p.email), TOKEN_TTL_SECONDS, draw);
    }
  }

  lemma DropsIt(y: System, pid: Pid, draw: string, gone: bool, email: string)
    requires pid in y.procs && Drops(y.procs[pid], email, draw !in y.granted, gone)
    ensures Get(Continue(y, pid, draw, gone).store, TokenKey(email)) ==
        if y.procs[pid].Comparing? then Some(draw) else None
  {
    var p := y.procs[pid];
    DelShrinks(y.store, TokenKey(email));
    SetExIs(y.store, TokenKey(email), TOKEN_TTL_SECONDS, draw);
  }

  /** The timeout of the account's token is due. */
  predicate TokenFires(y: System, e: Event, email: string) {
    e.FireTimer? && Due(y.store, e.id) && y.store.pending[e.id].key == TokenKey(email)
  }

  lemma FireOnToken(y: System, e: Event, email: string)
    requires TtlStore.Inv(y.store) && e.FireTimer?
    ensures Get(Apply(y, e).store, TokenKey(email)) ==
        if TokenFires(y, e, email) then None else Get(y.store, TokenKey(email))
  {
  }

  lemma FiresLate(y: System, e: Event, email: string)
    requires TtlStore.Inv(y.store) && Dated(y.store, y.granted)
        && TokenFires(y, e, email) && TokenKey(email) in y.store.values
    ensures var token := y.store.values[TokenKey(email)];
            token in y.granted && y.store.now >= y.granted[token].at + 900_000
  {
    assert y.store.timers[y.store.pending[e.id].key] == e.id;
  }

  /**
    In every reachable state a stored token goes away exactly when the reset that used it is done,
    when its account is found gone, when a new one is granted for the account, or by its timeout,
    and by that not before fifteen minutes have passed.
   */
  lemma TokenKeptExactly(now: int, es: seq<Event>, y: System, e: Event, email: string, token: string)
    requires y == Run(Initial(now), es) && Get(y.store, TokenKey(email)) == Some(token)
    ensures Get(Apply(y, e).store, TokenKey(email)) != Some(token) <==>
              TokenFires(y, e, email)
              || (e.Resume? && e.pid in y.procs && Drops(y.procs[e.pid], email, e.draw !in y.granted, e.accountGone))
    ensures TokenFires(y, e, email) ==> token in y.granted && y.store.now >= y.granted[token].at + 900_000
  {
    RunDeadlines(Initial(now), es);
    if e.Resume? && e.pid in y.procs {
      if Drops(y.procs[e.pid], email, e.draw !in y.granted, e.accountGone) {
        DropsIt(y, e.pid, e.draw, e.accountGone, email);
      } else {
        ContinueOnToken(y, e.pid, e.draw, e.accountGone, email);
      }
    } else if e.FireTimer? {
      FireOnToken(y, e, email);
      if TokenFires(y, e, email) { FiresLate(y, e, email); }
    }
  }

  /** With calls handled one at a time, an OTP only replaces another that was requested at least a minute before it. */
  lemma ReplacedOnlyAfterCooldown(now: int, es: seq<Event>, e: Event, k: Key)
    requires OneAtATime(Initial(now), es)
    requires var y := Run(Initial(now), es);
             HashReplaced(y.store.hashes, Apply(y, e).store.hashes, k)
    ensures var y, z := Run(Initial(now), es), Apply(Run(Initial(now), es), e);
            && y.store.hashes[k][OtpHash].Hash? && z.store.hashes[k][OtpHash].Hash?
            && y.store.hashes[k][OtpHash].salt < |z.issued| && z.store.hashes[k][OtpHash].salt < |z.issued|
            && z.issued[z.store.hashes[k][OtpHash].salt].at >= z.issued[y.store.hashes[k][OtpHash].salt].at
                + COOLDOWN_MS
  {
    RunSerial(Initial(now), es);
    RunSafe(Initial(now), es);
    ReplaceStep(Run(Initial(now), es), e, k);
  }

  predicate HashReplaced(hashes: map<Key, Bucket>, hashes': map<Key, Bucket>, k: Key) {
    && k in hashes && OtpHash in hashes[k] && k in hashes' && OtpHash in hashes'[k]
    && hashes[k][OtpHash] != hashes'[k][OtpHash]
  }

  lemma ReplacedByHashing(y: System, e: Event, k: Key)
    requires HashReplaced(y.store.hashes, Apply(y, e).store.hashes, k)
    ensures e.Resume? && e.pid in y.procs && y.procs[e.pid].Hashing? && OtpKey(y.procs[e.pid].email) == k
  {
    if e.Resume? && e.pid in y.procs && !(y.procs[e.pid].Hashing? && OtpKey(y.procs[e.pid].email) == k) {
      OnlyHashingReplaces(y, Apply(y, e), e.pid, e.draw, e.accountGone, k);
    }
  }

  lemma ReplaceStep(y: System, e: Event, k: Key)
    requires Safe(y) && Serial(y) && HashReplaced(y.store.hashes, Apply(y, e).store.hashes, k)
    ensures var b, z := y.store.hashes[k], Apply(y, e);
            var b' := z.store.hashes[k];
            && b[OtpHash].Hash? && b'[OtpHash].Hash? && b[OtpHash].salt < |z.issued| && b'[OtpHash].salt < |z.issued|
            && z.issued[b'[OtpHash].salt].at >= z.issued[b[OtpHash].salt].at + COOLDOWN_MS
  {
    var b := y.store.hashes[k];
    assert RecordOk(y.issued, b, OtpEmail(k));
    ReplacedByHashing(y, e, k);
    var p := y.procs[e.pid];
    RecordReplaces(b, p.otp, |y.issued|, p.at);
    assert !CoolingDown(b, p.at);
  }

  ghost predicate SameHash(hashes: map<Key, Bucket>, hashes': map<Key, Bucket>, k: Key) {
    k in hashes && OtpHash in hashes[k] && k in hashes' && OtpHash in hashes'[k] ==>
      hashes[k][OtpHash] == hashes'[k][OtpHash]
  }

  lemma IncrementKeepsHash(s: Store, key: Key, k: Key)
    ensures SameHash(s.hashes, HIncrBy(s, key, Attempts, 1).hashes, k)
  {
  }

  lemma OnlyHashingReplaces(y: System, z: System, pid: Pid, draw: string, gone: bool, k: Key)
    requires pid in y.procs && z == Continue(y, pid, draw, gone)
    requires !(y.procs[pid].Hashing? && OtpKey(y.procs[pid].email) == k)
    ensures SameHash(y.store.hashes, z.store.hashes, k)
  {
    if y.procs[pid].Comparing? { IncrementKeepsHash(y.store, OtpKey(y.procs[pid].email), k); }
  }

  /** With calls handled one at a time: five comparisons for an OTP, one password change for a token. */
  lemma OneAtATimeBounds(now: int, es: seq<Event>, salt: nat, token: string)
    requires OneAtATime(Initial(now), es)
    ensures var y := Run(Initial(now), es);
            && (salt < |y.comparisons| ==> y.comparisons[salt] <= MAX_ATTEMPTS)
            && Uses(y.changes, token) <= 1
  {
    RunSerial(Initial(now), es);
  }

  /** With at most `k` verify calls suspended at any moment an OTP is compared at most `5 + k - 1` times. */
  lemma ComparisonsBounded(now: int, es: seq<Event>, k: nat, salt: nat)
    requires AtMost(Initial(now), es, k)
    ensures var y := Run(Initial(now), es);
            salt < |y.comparisons| ==> y.comparisons[salt] <= MAX_ATTEMPTS + k - 1
  {
    RunBounded(Initial(now), es, salt, k);
  }

  /** The account the scan is looking for: the one the token was granted to, if the token is still stored. */
  ghost function HolderOf(y: System, token: string): Option<string> {
    if token in y.granted && Get(y.store, TokenKey(y.granted[token].email)) == Some(token)
    then Some(y.granted[token].email) else None
  }

  lemma HolderIsUnique(now: int, es: seq<Event>, token: string, email: string)
    ensures var y := Run(Initial(now), es);
            Get(y.store, TokenKey(email)) == Some(token) <==> HolderOf(y, token) == Some(email)
  {
    RunSafe(Initial(now), es);
    var y := Run(Initial(now), es);
    if Get(y.store, TokenKey(email)) == Some(token) {
      KeysNeverCollide(email, y.granted[token].email);
    }
  }

  lemma OtpIssued(email: string) returns (es: seq<Event>)
    ensures var y := Run(Initial(0), es);
            && y.procs == map[] && y.nextPid == 1 && y.comparisons == [0] && y.granted == map[] && y.changes == []
            && y.store == Store(map[], map[OtpKey(email) := OtpRecord("123456", 0, 0)], map[OtpKey(email) := 0],
                                map[0 := Timeout(OtpKey(email), DropAll, OTP_TTL_MS)], 1, 0)
    ensures AtMost(Initial(0), es, 2)
  {
    var e1, e2 := RequestStart(email, true, "123456"), Resume(0, "", false);
    assert [] + [e1] == [e1];
    Extend([], e1, 0, 0);
    Extend([e1], e2, 0, 0);
    Extend([e1] + [e2], e2, 0, 0);
    RecordReplaces(map[], "123456", 0, 0);
    es := [e1] + [e2] + [e2];
  }

  /** A call has read the record and is comparing the right OTP. */
  lemma RightGuessUnderWay(email: string) returns (es: seq<Event>)
    ensures var y := Run(Initial(0), es);
            && y.procs == map[1 := Comparing(email, "123456", Hash("123456", 0), 0)]
            && y.nextPid == 2 && y.changes == [] && y.granted == map[]
  {
    var issued := OtpIssued(email);
    RunSnoc(Initial(0), issued, VerifyStart(email, "123456"));
    RunSnoc(Initial(0), issued + [VerifyStart(email, "123456")], Resume(1, "", false));
    es := issued + [VerifyStart(email, "123456")] + [Resume(1, "", false)];
  }

  /** Its token is stored. */
  lemma TokenGranted(email: string) returns (es: seq<Event>)
    ensures var y := Run(Initial(0), es);
            y.procs == map[] && y.nextPid == 2 && y.changes == [] && Get(y.store, TokenKey(email)) == Some("t")
  {
    var compared := RightGuessUnderWay(email);
    RunSnoc(Initial(0), compared, Resume(1, "t", false));
    RunSnoc(Initial(0), compared + [Resume(1, "t", false)], Resume(1, "", false));
    es := compared + [Resume(1, "t", false)] + [Resume(1, "", false)];
    KeysNeverCollide(email, email);
    DelShrinks(Run(Initial(0), compared + [Resume(1, "t", false)]).store, OtpKey(email));
  }

  /** Two resets with one token, each of which has found the account before the other changes the password. */
  lemma TwoResetsMatched(email: string) returns (es: seq<Event>)
    ensures var y := Run(Initial(0), es);
            y.procs == map[2 := Matched("t", email), 3 := Matched("t", email)] && y.changes == []
  {
    var granted := TokenGranted(email);
    var start := ResetStart("t", [email]);
    RunSnoc(Initial(0), granted, start);
    RunSnoc(Initial(0), granted + [start], start);
    var started := granted + [start] + [start];
    assert Run(Initial(0), started).procs == map[2 := Scanning("t", [email]), 3 := Scanning("t", [email])];
    RunSnoc(Initial(0), started, Resume(2, "", false));
    RunSnoc(Initial(0), started + [Resume(2, "", false)], Resume(3, "", false));
    es := started + [Resume(2, "", false)] + [Resume(3, "", false)];
  }

  /** Both then change the password. */
  lemma TokenUsedTwice(email: string) returns (es: seq<Event>)
    ensures Uses(Run(Initial(0), es).changes, "t") == 2
  {
    var matched := TwoResetsMatched(email);
    RunSnoc(Initial(0), matched, Resume(2, "", false));
    RunSnoc(Initial(0), matched + [Resume(2, "", false)], Resume(3, "", false));
    es := matched + [Resume(2, "", false)] + [Resume(3, "", false)];
    var c := Change("t", email);
    UsesAppend([], c, "t");
    UsesAppend([c], c, "t");
    assert Run(Initial(0), es).changes == [] + [c] + [c];
  }

  /**
    The run so far has at most two verify calls suspended at once; none is now, and `n` wrong guesses
    have been counted.
   */
  ghost predicate Guessed(es: seq<Event>, email: string, n: nat) {
    var y := Run(Initial(0), es);
    && AtMost(Initial(0), es, 2)
    && y.procs == map[] && y.comparisons == [n] && y.store.now == 0
    && HGetAll(y.store, OtpKey(email)) == OtpRecord("123456", 0, 0)[Attempts := Num(n)]
  }

  lemma {:induction false} AtMostSnoc(y: System, es: seq<Event>, e: Event, k: nat)
    requires AtMost(y, es, k) && |VerifyCalls(Run(y, es + [e]).procs)| <= k
    ensures AtMost(y, es + [e], k)
    decreases |es|
  {
    if es == [] {
      assert ([] + [e])[1..] == [];
      assert Run(Apply(y, e), []) == Apply(y, e);
      assert AtMost(Apply(y, e), [], k);
    } else {
      assert (es + [e])[1..] == es[1..] + [e];
      AtMostSnoc(Apply(y, es[0]), es[1..], e, k);
    }
  }

  lemma FewCalls(procs: Procs, pids: set<Pid>)
    requires procs.Keys <= pids
    ensures |VerifyCalls(procs)| <= |pids|
  {
    SubsetSize(VerifyCalls(procs), pids);
  }

  /** One event more, with at most the calls `a` and `b` suspended. */
  lemma Extend(es: seq<Event>, e: Event, a: Pid, b: Pid)
    requires AtMost(Initial(0), es, 2) && Apply(Run(Initial(0), es), e).procs.Keys <= {a, b}
    ensures Run(Initial(0), es + [e]) == Apply(Run(Initial(0), es), e) && AtMost(Initial(0), es + [e], 2)
  {
    RunSnoc(Initial(0), es, e);
    FewCalls(Apply(Run(Initial(0), es), e).procs, {a, b});
    assert |{a, b}| <= 2;
    AtMostSnoc(Initial(0), es, e, 2);
  }

  /** A wrong guess has read the record. */
  lemma GuessRead(es: seq<Event>, email: string, n: nat) returns (more: seq<Event>)
    requires Guessed(es, email, n) && n < MAX_ATTEMPTS
    ensures var y, z := Run(Initial(0), es), Run(Initial(0), more);
            && AtMost(Initial(0), more, 2) && z.store == y.store && z.comparisons == y.comparisons
            && z.procs == map[y.nextPid := Reading(email, "000000", 0, OtpRecord("123456", 0, 0)[Attempts := Num(n)])]
  {
    var p := Run(Initial(0), es).nextPid;
    Extend(es, VerifyStart(email, "000000"), p, p);
    more := es + [VerifyStart(email, "000000")];
  }

  /** A wrong guess, from its start to its end. */
  lemma GuessOnce(es: seq<Event>, email: string, n: nat) returns (more: seq<Event>)
    requires Guessed(es, email, n) && n < MAX_ATTEMPTS
    ensures Guessed(more, email, n + 1)
  {
    var p, e := Run(Initial(0), es).nextPid, Resume(Run(Initial(0), es).nextPid, "", false);
    var compared := GuessCompared(es, email, n);
    assert "000000"[0] != "123456"[0];
    Extend(compared, e, p, p);
    more := compared + [e];
  }

  lemma GuessCompared(es: seq<Event>, email: string, n: nat) returns (more: seq<Event>)
    requires Guessed(es, email, n) && n < MAX_ATTEMPTS
    ensures var y, z := Run(Initial(0), es), Run(Initial(0), more);
            && AtMost(Initial(0), more, 2) && z.store == y.store && z.comparisons == [n + 1]
            && z.procs == map[y.nextPid := Comparing(email, "000000", Hash("123456", 0), 0)]
  {
    var p, e := Run(Initial(0), es).nextPid, Resume(Run(Initial(0), es).nextPid, "", false);
    var read := GuessRead(es, email, n);
    GuessCompares(Run(Initial(0), read), p, email, n);
    Extend(read, e, p, p);
    more := read + [e];
  }

  lemma GuessCompares(y: System, p: Pid, email: string, n: nat)
    requires p in y.procs && y.procs[p] == Reading(email, "000000", 0, OtpRecord("123456", 0, 0)[Attempts := Num(n)])
    requires n < MAX_ATTEMPTS && |y.comparisons| == 1
    ensures var z := Continue(y, p, "", false);
            && z.procs == y.procs[p := Comparing(email, "000000", Hash("123456", 0), 0)]
            && z.comparisons == [y.comparisons[0] + 1] && z.store == y.store
  {
  }

  /** The bound is reached: four guesses one by one and two at once are six comparisons. */
  lemma SixComparisons(email: string) returns (es: seq<Event>)
    ensures AtMost(Initial(0), es, 2) && Run(Initial(0), es).comparisons == [MAX_ATTEMPTS + 1]
  {
    var issued := OtpIssued(email);
    assert OtpRecord("123456", 0, 0)[Attempts := Num(0)] == OtpRecord("123456", 0, 0);
    var g1 := GuessOnce(issued, email, 0);
    var g2 := GuessOnce(g1, email, 1);
    var g3 := GuessOnce(g2, email, 2);
    var g4 := GuessOnce(g3, email, 3);
    es := TwoAtOnce(g4, email);
  }

  lemma TwoAtOnce(es: seq<Event>, email: string) returns (more: seq<Event>)
    requires Guessed(es, email, 4)
    ensures AtMost(Initial(0), more, 2) && Run(Initial(0), more).comparisons == [6]
  {
    var y := Run(Initial(0), es);
    var p, q := y.nextPid, y.nextPid + 1;
    var started := TwoRead(es, email);
    var e1, e2 := Resume(p, "", false), Resume(q, "", false);
    GuessCompares(Run(Initial(0), started), p, email, 4);
    Extend(started, e1, p, q);
    GuessCompares(Run(Initial(0), started + [e1]), q, email, 4);
    Extend(started + [e1], e2, p, q);
    more := started + [e1] + [e2];
  }

  lemma TwoRead(es: seq<Event>, email: string) returns (more: seq<Event>)
    requires Guessed(es, email, 4)
    ensures var y, z := Run(Initial(0), es), Run(Initial(0), more);
            var reading := Reading(email, "000000", 0, OtpRecord("123456", 0, 0)[Attempts := Num(4)]);
            && AtMost(Initial(0), more, 2) && z.comparisons == y.comparisons
            && z.procs == map[y.nextPid := reading, y.nextPid + 1 := reading]
  {
    var p, guess := Run(Initial(0), es).nextPid, VerifyStart(email, "000000");
    Extend(es, guess, p, p + 1);
    Extend(es + [guess], guess, p, p + 1);
    more := es + [guess] + [guess];
  }

  /** A call has read the record and is comparing a wrong guess. */
  lemma WrongGuessUnderWay(email: string) returns (es: seq<Event>)
    ensures var y := Run(Initial(0), es);
            && y.procs == map[1 := Comparing(email, "000000", Hash("123456", 0), 0)]
            && y.store == Store(map[], map[OtpKey(email) := OtpRecord("123456", 0, 0)], map[OtpKey(email) := 0],
                                map[0 := Timeout(OtpKey(email), DropAll, OTP_TTL_MS)], 1, 0)
  {
    var issued := OtpIssued(email);
    RunSnoc(Initial(0), issued, VerifyStart(email, "000000"));
    RunSnoc(Initial(0), issued + [VerifyStart(email, "000000")], Resume(1, "", false));
    es := issued + [VerifyStart(email, "000000")] + [Resume(1, "", false)];
  }

  /** The record of that call has expired. */
  lemma RecordExpired(email: string) returns (es: seq<Event>)
    ensures var y := Run(Initial(0), es);
            && y.procs == map[1 := Comparing(email, "000000", Hash("123456", 0), 0)]
            && y.store.hashes == map[] && y.store.timers == map[]
  {
    var es0 := WrongGuessUnderWay(email);
    RunSnoc(Initial(0), es0, Tick(OTP_TTL_MS));
    RunSnoc(Initial(0), es0 + [Tick(OTP_TTL_MS)], FireTimer(0));
    es := es0 + [Tick(OTP_TTL_MS)] + [FireTimer(0)];
  }

  /**
    A wrong guess whose comparison ends after the record has expired brings back a bucket that no
    timeout will ever remove (but that is always refused, by `EveryInterleaving`).
   */
  lemma LateIncrementWitness(email: string)
    ensures exists es :: LeftBehind(Run(Initial(0), es), OtpKey(email))
  {
    var es := RecordExpired(email);
    RunSnoc(Initial(0), es, Resume(1, "", false));
    assert "000000"[0] != "123456"[0];
    assert LeftBehind(Run(Initial(0), es + [Resume(1, "", false)]), OtpKey(email));
  }

  predicate NoOtp(hashes: map<Key, Bucket>, k: Key) {
    k in hashes && OtpHash !in hashes[k]
  }

  /** Exactly the steps that bring such a bucket about: a wrong guess finds its record gone. */
  predicate LateWrongGuess(y: System, e: Event, k: Key) {
    && e.Resume? && e.pid in y.procs && y.procs[e.pid].Comparing?
    && !Matches(y.procs[e.pid].otp, y.procs[e.pid].hash)
    && OtpKey(y.procs[e.pid].email) == k && k !in y.store.hashes
  }

  lemma LeftoverExactlyFromLateGuess(y: System, e: Event, k: Key)
    requires Safe(y) && !NoOtp(y.store.hashes, k)
    ensures NoOtp(Apply(y, e).store.hashes, k) <==> LateWrongGuess(y, e, k)
  {
    if e.Resume? && e.pid in y.procs {
      if y.procs[e.pid].Comparing? {
        GuessLeavesOnlyLateBuckets(y, e, k);
      } else {
        OthersLeaveNoBucket(y, e, k);
      }
    }
  }

  lemma GuessLeavesOnlyLateBuckets(y: System, e: Event, k: Key)
    requires !NoOtp(y.store.hashes, k) && e.Resume? && e.pid in y.procs && y.procs[e.pid].Comparing?
    ensures NoOtp(Apply(y, e).store.hashes, k) <==> LateWrongGuess(y, e, k)
  {
    var p := y.procs[e.pid];
    if !Matches(p.otp, p.hash) {
      var b := HGetAll(y.store, OtpKey(p.email));
      assert Apply(y, e).store.hashes == y.store.hashes[OtpKey(p.email) := b[Attempts := Incremented(b, Attempts, 1)]];
    }
  }

  lemma OthersLeaveNoBucket(y: System, e: Event, k: Key)
    requires !NoOtp(y.store.hashes, k) && e.Resume? && e.pid in y.procs && !y.procs[e.pid].Comparing?
    ensures !NoOtp(Apply(y, e).store.hashes, k)
  {
    if y.procs[e.pid].Hashing? {
      var Hashing(email, at, otp) := y.procs[e.pid];
      RecordReplaces(HGetAll(y.store, OtpKey(email)), otp, |y.issued|, at);
    } else {
      BucketsShrink(y, e.pid, e.draw, e.accountGone);
    }
  }

  predicate LeftBehind(y: System, k: Key) {
    k in y.store.hashes && k !in y.store.timers && y.procs == map[]
  }

  lemma {:induction false} RunSnoc(y: System, es: seq<Event>, e: Event)
    ensures Run(y, es + [e]) == Apply(Run(y, es), e)
    decreases |es|
  {
    if es == [] {
      assert Run(Apply(y, e), []) == Apply(y, e);
    } else {
      assert (es + [e])[1..] == es[1..] + [e];
      RunSnoc(Apply(y, es[0]), es[1..], e);
    }
  }

  // ---------- Imperative form ----------

  class PasswordResetService {
    const store: KeyValueStore

    constructor (store: KeyValueStore)
      ensures this.store == store
    {
      this.store := store;
    }

    /** requestPasswordReset, up to the hashing of a new OTP. */
    method RequestMayIssue(email: string, registered: bool, now: int) returns (issue: bool)
      ensures issue == (registered && !CoolingDown(HGetAll(store.Model(), OtpKey(email)), now))
    {
      if !registered { return false; }
      var existing := store.StoreHGetAll(OtpKey(email));
      if LastSentAt in existing && existing[LastSentAt].Num? && now - existing[LastSentAt].n < COOLDOWN_MS {
        return false;
      }
      return true;
    }

    method RequestHashed(email: string, at: int, otp: string, salt: nat)
      modifies store
      ensures store.Model() == HSet(old(store.Model()), OtpKey(email), OtpRecord(otp, salt, at))
    {
      store.StoreHSet(OtpKey(email),
        map[OtpHash := Hash(otp, salt), ExpiresAt := Num(at + OTP_TTL_MS), Attempts := Num(0),
            MaxAttempts := Num(MAX_ATTEMPTS), LastSentAt := Num(at)]);
    }

    method RequestArm(email: string)
      modifies store
      ensures store.Model() == Expire(old(store.Model()), OtpKey(email), OTP_TTL_SECONDS)
    {
      store.StoreExpire(OtpKey(email), OTP_TTL_SECONDS);
    }

    /** verifyPasswordResetOtp, from the read of the record to the start of bcrypt.compare. */
    method VerifyDecide(email: string, record: Bucket, now: int) returns (v: Verdict)
      modifies store
      ensures v == Judge(record, now)
      ensures store.Model() == AfterJudge(old(store.Model()), email, v)
    {
      if OtpHash !in record { return Refuse; }
      if HasNum(record, ExpiresAt) && record[ExpiresAt].n < now {
        store.StoreDel(OtpKey(email));
        return DropRecord;
      }
      if HasNum(record, Attempts) && HasNum(record, MaxAttempts) && record[Attempts].n >= record[MaxAttempts].n {
        store.StoreDel(OtpKey(email));
        return DropRecord;
      }
      return CompareWith(record[OtpHash]);
    }

    /** ... and once the comparison is back. */
    method VerifyCompared(email: string, ok: bool, resetToken: string) returns (r: Result<string, ()>)
      modifies store
      ensures store.Model() == AfterCompare(old(store.Model()), email, ok, resetToken)
      ensures r == if ok then Ok(resetToken) else Err(())
    {
      if !ok {
        var _ := store.StoreHIncrBy(OtpKey(email), Attempts, 1);
        return Err(());
      }
      store.StoreSetEx(TokenKey(email), TOKEN_TTL_SECONDS, resetToken);
      return Ok(resetToken);
    }

    /** The scan of resetPasswordWithToken: the first account, in the given order, that holds the token. */
    method FindEmailByToken(resetToken: string, candidates: seq<string>) returns (matched: Option<string>)
      ensures matched.None? <==> forall e <- candidates :: Get(store.Model(), TokenKey(e)) != Some(resetToken)
      ensures matched.Some? ==> exists i | 0 <= i < |candidates| ::
                                  && candidates[i] == matched.value
                                  && Get(store.Model(), TokenKey(candidates[i])) == Some(resetToken)
                                  && forall j | 0 <= j < i ::
                                      Get(store.Model(), TokenKey(candidates[j])) != Some(resetToken)
    {
      matched := None;
      var i := 0;
      while i < |candidates|
        invariant 0 <= i <= |candidates| && matched.None?
        invariant forall j | 0 <= j < i :: Get(store.Model(), TokenKey(candidates[j])) != Some(resetToken)
      {
        var token := store.StoreGet(TokenKey(candidates[i]));
        if token == Some(resetToken) {
          matched := Some(candidates[i]);
          return;
        }
        i := i + 1;
      }
    }
  }
}
