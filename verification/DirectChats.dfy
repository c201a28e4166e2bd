/**
  Direct chats: a chat is looked up in both directions and created on the first message, and each
  chat caches the id of its last message.

  First the tables and whole sends; then sends cut at their awaits, in any interleaving.
 */
module DirectChats {
  import opened Common

  type UserId = nat

  /** Chats and messages are identified by their positions. */
  datatype Chat = Chat(creator: UserId, recipient: UserId, lastSentMessageId: Option<nat>)

  /** A message belongs to a direct chat, or to none if it went to a group. */
  datatype Tables = Tables(chats: seq<Chat>, messages: seq<Option<nat>>)

  datatype Op = SendDirect(sender: UserId, receiver: UserId) | SendGroup

  predicate Joins(c: Chat, a: UserId, b: UserId) {
    (c.creator == a && c.recipient == b) || (c.creator == b && c.recipient == a)
  }

  /** The position of the first chat of the pair, or the number of chats. */
  function Find(chats: seq<Chat>, a: UserId, b: UserId): (i: nat)
    ensures i <= |chats|
    ensures i < |chats| ==> Joins(chats[i], a, b)
    ensures forall j | 0 <= j < i :: !Joins(chats[j], a, b)
  {
    if chats == [] then 0
    else if Joins(chats[0], a, b) then 0
    else 1 + Find(chats[1..], a, b)
  }

  function EnsureChat(t: Tables, a: UserId, b: UserId): Tables {
    if Find(t.chats, a, b) < |t.chats| then t else t.(chats := t.chats + [Chat(a, b, None)])
  }

  function CreateMessage(t: Tables, chat: nat): Tables {
    t.(messages := t.messages + [Some(chat)])
  }

  function UpdateLastSentMessage(t: Tables, chat: nat, message: nat): Tables
    requires chat < |t.chats|
  {
    t.(chats := t.chats[chat := t.chats[chat].(lastSentMessageId := Some(message))])
  }

  function Apply(t: Tables, op: Op): Tables {
    match op
    case SendDirect(a, b) =>
      var chat := Find(t.chats, a, b);
      UpdateLastSentMessage(CreateMessage(EnsureChat(t, a, b), chat), chat, |t.messages|)
    case SendGroup => t.(messages := t.messages + [None])
  }

  function Run(t: Tables, ops: seq<Op>): Tables
    decreases |ops|
  {
    if ops == [] then t else Run(Apply(t, ops[0]), ops[1..])
  }

  // ---------- Invariant ----------

  predicate OnePerPair(chats: seq<Chat>) {
    forall i, j | 0 <= i < j < |chats| :: !Joins(chats[i], chats[j].creator, chats[j].recipient)
  }

  predicate IsGreatest(messages: seq<Option<nat>>, chat: nat, m: nat) {
    m < |messages| && messages[m] == Some(chat) && forall k | m < k < |messages| :: messages[k] != Some(chat)
  }

  /** The cached id is that of the greatest message of the chat, and absent only if there is none. */
  predicate CacheRight(t: Tables, chat: nat)
    requires chat < |t.chats|
  {
    match t.chats[chat].lastSentMessageId
    case None => forall k | 0 <= k < |t.messages| :: t.messages[k] != Some(chat)
    case Some(m) => IsGreatest(t.messages, chat, m)
  }

  predicate Inv(t: Tables) {
    && OnePerPair(t.chats)
    && (forall c | 0 <= c < |t.chats| :: CacheRight(t, c) && t.chats[c].lastSentMessageId.Some?)
    && (forall m | 0 <= m < |t.messages| :: t.messages[m].Some? ==> t.messages[m].value < |t.chats|)
  }

  lemma SendKeepsCaches(t: Tables, a: UserId, b: UserId)
    requires Inv(t)
    ensures var t' := Apply(t, SendDirect(a, b));
            forall c | 0 <= c < |t'.chats| :: CacheRight(t', c) && t'.chats[c].lastSentMessageId.Some?
  {
    var t' := Apply(t, SendDirect(a, b));
    forall c | 0 <= c < |t'.chats| ensures CacheRight(t', c) && t'.chats[c].lastSentMessageId.Some? {
      if c < |t.chats| { assert CacheRight(t, c) && t.chats[c].lastSentMessageId.Some?; }
    }
  }

  lemma SendKeepsPairs(t: Tables, a: UserId, b: UserId)
    requires OnePerPair(t.chats)
    ensures OnePerPair(Apply(t, SendDirect(a, b)).chats)
  {
    var chats' := Apply(t, SendDirect(a, b)).chats;
    forall i, j | 0 <= i < j < |chats'| ensures !Joins(chats'[i], chats'[j].creator, chats'[j].recipient) {
      if j < |t.chats| { assert !Joins(t.chats[i], t.chats[j].creator, t.chats[j].recipient); }
    }
  }

  lemma ApplyKeepsInv(t: Tables, op: Op)
    requires Inv(t)
    ensures Inv(Apply(t, op))
  {
    match op
    case SendDirect(a, b) =>
      SendKeepsCaches(t, a, b);
      SendKeepsPairs(t, a, b);
    case SendGroup =>
      forall c | 0 <= c < |t.chats| ensures CacheRight(Apply(t, op), c) { assert CacheRight(t, c); }
  }

  lemma {:induction false} RunKeepsInv(t: Tables, ops: seq<Op>)
    requires Inv(t)
    ensures Inv(Run(t, ops))
    decreases |ops|
  {
    if ops != [] {
      ApplyKeepsInv(t, ops[0]);
      RunKeepsInv(Apply(t, ops[0]), ops[1..]);
    }
  }

  lemma PairIsUnique(chats: seq<Chat>, i: nat, j: nat, a: UserId, b: UserId)
    requires OnePerPair(chats) && i < |chats| && j < |chats| && Joins(chats[i], a, b) && Joins(chats[j], a, b)
    ensures i == j
  {
  }

  /**
    After every run of sends handled one at a time: the look-up finds the one chat of a pair whoever
    asks, and its cached message is its last.
   */
  lemma EveryRun(ops: seq<Op>, a: UserId, b: UserId)
    ensures var t := Run(Tables([], []), ops);
            && Find(t.chats, a, b) == Find(t.chats, b, a)
            && (forall i | 0 <= i < |t.chats| :: Joins(t.chats[i], a, b) ==> i == Find(t.chats, a, b))
            && (Find(t.chats, a, b) < |t.chats| ==>
                  CacheRight(t, Find(t.chats, a, b)) && t.chats[Find(t.chats, a, b)].lastSentMessageId.Some?)
  {
    RunKeepsInv(Tables([], []), ops);
    var t := Run(Tables([], []), ops);
    var f := Find(t.chats, a, b);
    forall i | 0 <= i < |t.chats| && Joins(t.chats[i], a, b) ensures i == f {
      PairIsUnique(t.chats, f, i, a, b);
    }
  }

  /**
    A send after any run: one message more, in a chat of the two, whose cache becomes that message. If
    the two had no chat it is opened by the sender; all else is as before.
   */
  lemma SendExactly(ops: seq<Op>, a: UserId, b: UserId)
    ensures var t := Run(Tables([], []), ops);
            var t' := Apply(t, SendDirect(a, b));
            exists c: nat ::
              && c < |t'.chats| && t'.messages == t.messages + [Some(c)]
              && t'.chats[c].lastSentMessageId == Some(|t.messages|)
              && (forall i | 0 <= i < |t.chats| && i != c :: t'.chats[i] == t.chats[i])
              && (if exists i: nat :: i < |t.chats| && Joins(t.chats[i], a, b)
                  then |t'.chats| == |t.chats| && Joins(t.chats[c], a, b) && SameEnds(t.chats[c], t'.chats[c])
                  else c == |t.chats| && |t'.chats| == c + 1 && t'.chats[c].creator == a && t'.chats[c].recipient == b)
  {
    var t := Run(Tables([], []), ops);
    var c := Find(t.chats, a, b);
    if i: nat :| i < |t.chats| && Joins(t.chats[i], a, b) { assert c <= i; }
    assert Apply(t, SendDirect(a, b)).messages == t.messages + [Some(c)];
  }

  /** A message to a group is stored too, and concerns no direct chat and no cache. */
  lemma GroupSendExactly(t: Tables)
    ensures Apply(t, SendGroup).chats == t.chats && Apply(t, SendGroup).messages == t.messages + [None]
  {
  }

  predicate SameEnds(c: Chat, d: Chat) { c.creator == d.creator && c.recipient == d.recipient }

  // ---------- Sends that overlap ----------

  /** What a suspended send will do next. */
  datatype Send =
    | Creating(creator: UserId, recipient: UserId) // no chat was found: the row is being created
    | Storing(chat: nat)                           // the message is being created
    | Updating(chat: nat, message: nat)            // the message is there, the cache is being updated

  datatype Update = Update(chat: nat, message: nat)

  type Sends = map<nat, Send>

  /** `log` is a history: the cache updates, in the order in which they were applied. */
  datatype System = System(tables: Tables, sends: Sends, next: nat, log: seq<Update>)

  datatype Event = Begin(sender: UserId, receiver: UserId) | Resume(send: nat) | GroupMessage

  /** There is a chat that the first user opened with the second. */
  predicate HasChat(chats: seq<Chat>, a: UserId, b: UserId) { exists c <- chats :: c.creator == a && c.recipient == b }

  function Continue(y: System, i: nat): System
    requires i in y.sends
  {
    match y.sends[i]
    case Creating(a, b) =>
      // the table holds one row for each creator and recipient; the insertion fails and the send with it
      if HasChat(y.tables.chats, a, b) then y.(sends := y.sends - {i})
      else
        y.(tables := y.tables.(chats := y.tables.chats + [Chat(a, b, None)]),
          sends := y.sends[i := Storing(|y.tables.chats|)])
    case Storing(chat) =>
      y.(tables := CreateMessage(y.tables, chat), sends := y.sends[i := Updating(chat, |y.tables.messages|)])
    case Updating(chat, message) =>
      if chat < |y.tables.chats| then
        y.(tables := UpdateLastSentMessage(y.tables, chat, message), sends := y.sends - {i},
          log := y.log + [Update(chat, message)])
      else y
  }

  function Step(y: System, e: Event): System {
    match e
    case Begin(a, b) =>
      var chat := Find(y.tables.chats, a, b);
      y.(sends := y.sends[y.next := if chat < |y.tables.chats| then Storing(chat) else Creating(a, b)],
        next := y.next + 1)
    case Resume(i) => if i in y.sends then Continue(y, i) else y
    case GroupMessage => y.(tables := Apply(y.tables, SendGroup))
  }

  function Play(y: System, es: seq<Event>): System
    decreases |es|
  {
    if es == [] then y else Play(Step(y, es[0]), es[1..])
  }

  const START := System(Tables([], []), map[], 0, [])

  /** A send that nothing overlaps is the whole send. */
  lemma UndisturbedSend(y: System, a: UserId, b: UserId)
    requires y.sends == map[]
    ensures var z := Step(Step(Step(Step(y, Begin(a, b)), Resume(y.next)), Resume(y.next)), Resume(y.next));
            z.tables == Apply(y.tables, SendDirect(a, b)) && z.sends == map[]
  {
  }

  // ---------- Which cache is right once its updates are through ----------

  function LastFor(log: seq<Update>, chat: nat): Option<nat> {
    if log == [] then None
    else if log[|log| - 1].chat == chat then Some(log[|log| - 1].message)
    else LastFor(log[..|log| - 1], chat)
  }

  ghost predicate UpdatePending(sends: Sends, chat: nat, message: nat) {
    exists i <- sends :: sends[i] == Updating(chat, message)
  }

  predicate IsMessage(messages: seq<Option<nat>>, chat: nat, message: nat) {
    message < |messages| && messages[message] == Some(chat)
  }

  /** Every message has its update applied or under way, and only messages have. */
  ghost predicate Accounted(messages: seq<Option<nat>>, sends: Sends, log: seq<Update>) {
    && (forall c: nat, m: nat | IsMessage(messages, c, m) :: Update(c, m) in log || UpdatePending(sends, c, m))
    && (forall u <- log :: IsMessage(messages, u.chat, u.message))
    && (forall i <- sends | sends[i].Updating? :: IsMessage(messages, sends[i].chat, sends[i].message))
  }

  ghost predicate InRange(chats: seq<Chat>, sends: Sends, next: nat) {
    forall i <- sends :: i < next && (!sends[i].Creating? ==> sends[i].chat < |chats|)
  }

  /** A cache holds the message of the last update applied to it. */
  ghost predicate CachesLast(chats: seq<Chat>, log: seq<Update>) {
    && (forall u <- log :: u.chat < |chats|)
    && forall c | 0 <= c < |chats| :: chats[c].lastSentMessageId == LastFor(log, c)
  }

  ghost predicate Sound(y: System) {
    && Accounted(y.tables.messages, y.sends, y.log)
    && InRange(y.tables.chats, y.sends, y.next)
    && CachesLast(y.tables.chats, y.log)
  }

  /** Sends that are not updating come, go and move. */
  lemma AccountedAfterMove(messages: seq<Option<nat>>, sends: Sends, sends': Sends, log: seq<Update>, i: nat)
    requires Accounted(messages, sends, log)
    requires i in sends ==> !sends[i].Updating?
    requires i in sends' ==> !sends'[i].Updating?
    requires sends' - {i} == sends - {i}
    ensures Accounted(messages, sends', log)
  {
    forall j ensures j in sends - {i} <==> j in sends && j != i {}
    forall j ensures j in sends' - {i} <==> j in sends' && j != i {}
    forall j <- sends | j != i
      ensures j in sends' && sends'[j] == sends[j]
    {
      assert (sends - {i})[j] == (sends' - {i})[j];
    }
    forall j <- sends' | j != i
      ensures j in sends && sends'[j] == sends[j]
    {
      assert (sends - {i})[j] == (sends' - {i})[j];
    }
    forall c: nat, m: nat | IsMessage(messages, c, m) ensures Update(c, m) in log || UpdatePending(sends', c, m) {
      if UpdatePending(sends, c, m) {
        var j :| j in sends && sends[j] == Updating(c, m);
        assert sends'[j] == Updating(c, m);
      }
    }
  }

  lemma {:induction false} LastForNone(log: seq<Update>, chat: nat)
    requires forall u <- log :: u.chat != chat
    ensures LastFor(log, chat) == None
  {
    if log != [] {
      assert log[|log| - 1] in log;
      LastForNone(log[..|log| - 1], chat);
    }
  }

  lemma CreateSound(y: System, i: nat)
    requires Sound(y) && i in y.sends && y.sends[i].Creating?
    ensures Sound(Continue(y, i))
  {
    var z := Continue(y, i);
    assert z.sends - {i} == y.sends - {i};
    AccountedAfterMove(y.tables.messages, y.sends, z.sends, y.log, i);
    LastForNone(y.log, |y.tables.chats|);
  }

  lemma StoreSound(y: System, i: nat)
    requires Sound(y) && i in y.sends && y.sends[i].Storing?
    ensures Sound(Continue(y, i))
  {
    var z := Continue(y, i);
    var chat, message := y.sends[i].chat, |y.tables.messages|;
    assert z.sends[i] == Updating(chat, message);
    forall c: nat, m: nat | IsMessage(z.tables.messages, c, m)
      ensures Update(c, m) in z.log || UpdatePending(z.sends, c, m)
    {
      if m < message {
        assert IsMessage(y.tables.messages, c, m);
        if UpdatePending(y.sends, c, m) {
          var j :| j in y.sends && y.sends[j] == Updating(c, m);
          assert z.sends[j] == Updating(c, m);
        }
      }
    }
  }

  lemma UpdateSound(y: System, i: nat)
    requires Sound(y) && i in y.sends && y.sends[i].Updating?
    ensures Sound(Continue(y, i))
  {
    var z := Continue(y, i);
    var u := Update(y.sends[i].chat, y.sends[i].message);
    assert z.log[|z.log| - 1] == u && z.log[..|z.log| - 1] == y.log;
    forall c: nat, m: nat | IsMessage(z.tables.messages, c, m)
      ensures Update(c, m) in z.log || UpdatePending(z.sends, c, m)
    {
      if UpdatePending(y.sends, c, m) && Update(c, m) != u {
        var j :| j in y.sends && y.sends[j] == Updating(c, m);
        assert z.sends[j] == Updating(c, m);
      }
    }
  }

  lemma BeginSound(y: System, a: UserId, b: UserId)
    requires Sound(y)
    ensures Sound(Step(y, Begin(a, b)))
  {
    var z := Step(y, Begin(a, b));
    assert z.sends - {y.next} == y.sends - {y.next};
    AccountedAfterMove(y.tables.messages, y.sends, z.sends, y.log, y.next);
  }

  lemma GroupSound(y: System)
    requires Sound(y)
    ensures Sound(Step(y, GroupMessage))
  {
    var z := Step(y, GroupMessage);
    forall c: nat, m: nat | IsMessage(z.tables.messages, c, m) ensures IsMessage(y.tables.messages, c, m) {}
  }

  lemma {:induction false} PlaySound(y: System, es: seq<Event>)
    requires Sound(y)
    ensures Sound(Play(y, es))
    decreases |es|
  {
    if es != [] {
      match es[0] {
        case Begin(a, b) => BeginSound(y, a, b);
        case Resume(i) =>
          if i in y.sends {
            match y.sends[i] {
              case Creating(_, _) => CreateSound(y, i);
              case Storing(_) => StoreSound(y, i);
              case Updating(_, _) => UpdateSound(y, i);
            }
          }
        case GroupMessage => GroupSound(y);
      }
      PlaySound(Step(y, es[0]), es[1..]);
    }
  }

  /** The last update of the chat was applied after that of a later message. */
  predicate LastCameLate(log: seq<Update>, chat: nat) {
    LastFor(log, chat).Some? && exists u <- log :: u.chat == chat && u.message > LastFor(log, chat).value
  }

  lemma {:induction false} LastForIsIn(log: seq<Update>, chat: nat)
    ensures match LastFor(log, chat)
            case None => forall u <- log :: u.chat != chat
            case Some(m) => Update(chat, m) in log
  {
    if log != [] {
      LastForIsIn(log[..|log| - 1], chat);
      assert log == log[..|log| - 1] + [log[|log| - 1]];
    }
  }

  lemma LoggedCacheRight(t: Tables, log: seq<Update>, chat: nat)
    requires chat < |t.chats| && t.chats[chat].lastSentMessageId == LastFor(log, chat)
    requires forall m: nat :: IsMessage(t.messages, chat, m) <==> Update(chat, m) in log
    ensures CacheRight(t, chat) <==> !LastCameLate(log, chat)
  {
    LastForIsIn(log, chat);
    match LastFor(log, chat)
    case None =>
      forall k | 0 <= k < |t.messages| ensures t.messages[k] != Some(chat) {
        assert IsMessage(t.messages, chat, k) <==> Update(chat, k) in log;
      }
    case Some(last) =>
      assert IsMessage(t.messages, chat, last);
      if LastCameLate(log, chat) {
        var u :| u in log && u.chat == chat && u.message > last;
        assert u == Update(chat, u.message);
        assert IsMessage(t.messages, chat, u.message);
      } else {
        forall k | last < k < |t.messages| ensures t.messages[k] != Some(chat) {
          assert IsMessage(t.messages, chat, k) <==> Update(chat, k) in log;
        }
      }
  }

  /**
    After every interleaving: once no update of a chat is under way, its cache is right exactly if
    the last update applied to it did not come after the update of a later message.
   */
  lemma CacheRightExactly(es: seq<Event>, chat: nat)
    requires var y := Play(START, es);
             chat < |y.tables.chats| && forall m: nat :: !UpdatePending(y.sends, chat, m)
    ensures var y := Play(START, es);
            && (forall m: nat :: IsMessage(y.tables.messages, chat, m) <==> Update(chat, m) in y.log)
            && (CacheRight(y.tables, chat) <==> !LastCameLate(y.log, chat))
  {
    PlaySound(START, es);
    var y := Play(START, es);
    forall m: nat ensures IsMessage(y.tables.messages, chat, m) <==> Update(chat, m) in y.log {
      assert !UpdatePending(y.sends, chat, m);
    }
    LoggedCacheRight(y.tables, y.log, chat);
  }

  lemma {:induction false} PlaySnoc(y: System, es: seq<Event>, e: Event)
    ensures Play(y, es + [e]) == Step(Play(y, es), e)
    decreases |es|
  {
    if es == [] {
      assert Play(Step(y, e), []) == Step(y, e);
    } else {
      assert (es + [e])[1..] == es[1..] + [e];
      PlaySnoc(Step(y, es[0]), es[1..], e);
    }
  }

  /** A first send has opened the chat. */
  lemma OneSendBegun(a: UserId, b: UserId) returns (es: seq<Event>)
    ensures Play(START, es) == System(Tables([Chat(a, b, None)], []), map[0 := Storing(0)], 1, [])
  {
    PlaySnoc(START, [], Begin(a, b));
    PlaySnoc(START, [Begin(a, b)], Resume(0));
    es := [Begin(a, b)] + [Resume(0)];
  }

  /** Two sends to one chat have stored their messages. */
  lemma TwoSendsStored(a: UserId, b: UserId) returns (es: seq<Event>)
    ensures Play(START, es) ==
        System(Tables([Chat(a, b, None)], [Some(0), Some(0)]), map[0 := Updating(0, 0), 1 := Updating(0, 1)], 2, [])
  {
    var begun := OneSendBegun(a, b);
    PlaySnoc(START, begun, Begin(a, b));
    PlaySnoc(START, begun + [Begin(a, b)], Resume(0));
    PlaySnoc(START, begun + [Begin(a, b)] + [Resume(0)], Resume(1));
    es := begun + [Begin(a, b)] + [Resume(0)] + [Resume(1)];
  }

  /**
    Two overlapping sends whose updates come in the wrong order leave the older message cached, with
    nothing under way.
   */
  lemma OverlapLeavesOlderMessage(a: UserId, b: UserId) returns (es: seq<Event>)
    ensures var y := Play(START, es);
            && y.sends == map[] && y.tables.messages == [Some(0), Some(0)]
            && y.tables.chats == [Chat(a, b, Some(0))] && !CacheRight(y.tables, 0)
  {
    var stored := TwoSendsStored(a, b);
    PlaySnoc(START, stored, Resume(1));
    PlaySnoc(START, stored + [Resume(1)], Resume(0));
    es := stored + [Resume(1)] + [Resume(0)];
    assert Play(START, es).tables.messages[1] == Some(0);
  }

  // ---------- How many chats a pair gets ----------

  /** No user opens two chats with the same other user. */
  predicate OncePerOpener(chats: seq<Chat>) {
    forall i, j | 0 <= i < j < |chats| :: !SameEnds(chats[i], chats[j])
  }

  lemma AppendOncePerOpener(chats: seq<Chat>, a: UserId, b: UserId, more: seq<Chat>)
    requires OncePerOpener(chats) && !HasChat(chats, a, b) && more == chats + [Chat(a, b, None)]
    ensures OncePerOpener(more)
  {
    forall i | 0 <= i < |chats| ensures !SameEnds(more[i], more[|chats|]) {
      assert chats[i] in chats;
    }
  }

  /** Only the ends of a chat count here. */
  predicate EndsKept(chats: seq<Chat>, chats': seq<Chat>) {
    |chats'| == |chats| && forall i | 0 <= i < |chats| :: SameEnds(chats[i], chats'[i])
  }

  lemma EndsKeptPairs(chats: seq<Chat>, chats': seq<Chat>)
    requires EndsKept(chats, chats')
    ensures OnePerPair(chats) ==> OnePerPair(chats')
    ensures OncePerOpener(chats) ==> OncePerOpener(chats')
  {
    if OnePerPair(chats) {
      forall i, j | 0 <= i < j < |chats'| ensures !Joins(chats'[i], chats'[j].creator, chats'[j].recipient) {
        assert SameEnds(chats[i], chats'[i]) && !Joins(chats[i], chats[j].creator, chats[j].recipient);
      }
    }
    if OncePerOpener(chats) {
      forall i, j | 0 <= i < j < |chats'| ensures !SameEnds(chats'[i], chats'[j]) {
        assert SameEnds(chats[i], chats'[i]) && !SameEnds(chats[i], chats[j]);
      }
    }
  }

  /** A step creates a chat or keeps the ends of all. */
  lemma StepOnEnds(y: System, e: Event)
    ensures Creates(y, e) || EndsKept(y.tables.chats, Step(y, e).tables.chats)
    ensures Creates(y, e) ==>
              Step(y, e).tables.chats ==
              y.tables.chats + [Chat(y.sends[e.send].creator, y.sends[e.send].recipient, None)]
  {
  }

  /** A creation takes effect. */
  predicate Creates(y: System, e: Event) {
    && e.Resume? && e.send in y.sends && y.sends[e.send].Creating?
    && !HasChat(y.tables.chats, y.sends[e.send].creator, y.sends[e.send].recipient)
  }

  lemma {:induction false} PlayOncePerOpener(y: System, es: seq<Event>)
    requires OncePerOpener(y.tables.chats)
    ensures OncePerOpener(Play(y, es).tables.chats)
    decreases |es|
  {
    if es != [] {
      var z := Step(y, es[0]);
      StepOnEnds(y, es[0]);
      if Creates(y, es[0]) {
        var p := y.sends[es[0].send];
        AppendOncePerOpener(y.tables.chats, p.creator, p.recipient, z.tables.chats);
      } else {
        EndsKeptPairs(y.tables.chats, z.tables.chats);
      }
      PlayOncePerOpener(z, es[1..]);
    }
  }

  /** After every interleaving a user has opened at most one chat with another, so a pair has at most two. */
  lemma AtMostTwoPerPair(es: seq<Event>, a: UserId, b: UserId, i: nat, j: nat, k: nat)
    requires i < j < k < |Play(START, es).tables.chats|
    ensures var chats := Play(START, es).tables.chats;
            && !SameEnds(chats[i], chats[j])
            && !(Joins(chats[i], a, b) && Joins(chats[j], a, b) && Joins(chats[k], a, b))
  {
    PlayOncePerOpener(START, es);
    var chats := Play(START, es).tables.chats;
    assert !SameEnds(chats[i], chats[j]) && !SameEnds(chats[i], chats[k]) && !SameEnds(chats[j], chats[k]);
  }

  lemma HasEitherChat(chats: seq<Chat>, a: UserId, b: UserId)
    ensures HasChat(chats, a, b) || HasChat(chats, b, a) <==> Find(chats, a, b) < |chats|
  {
    var i := Find(chats, a, b);
    if i < |chats| {
      assert chats[i] in chats;
    } else {
      forall c <- chats ensures !Joins(c, a, b) {
        var j :| 0 <= j < |chats| && chats[j] == c;
        assert !Joins(chats[j], a, b);
      }
    }
  }

  lemma AppendOnePerPair(chats: seq<Chat>, a: UserId, b: UserId, more: seq<Chat>)
    requires more == chats + [Chat(a, b, None)]
    ensures OnePerPair(more) <==> OnePerPair(chats) && Find(chats, a, b) == |chats|
  {
    if OnePerPair(more) {
      forall i | 0 <= i < |chats| ensures !Joins(chats[i], a, b) {
        assert !Joins(more[i], more[|chats|].creator, more[|chats|].recipient);
      }
      forall i, j | 0 <= i < j < |chats| ensures !Joins(chats[i], chats[j].creator, chats[j].recipient) {
        assert !Joins(more[i], more[j].creator, more[j].recipient);
      }
    }
  }

  /** A creation takes effect when the other user has opened a chat already. */
  predicate Crosses(y: System, e: Event) {
    Creates(y, e) && HasChat(y.tables.chats, y.sends[e.send].recipient, y.sends[e.send].creator)
  }

  predicate NoneCross(y: System, es: seq<Event>)
    decreases |es|
  {
    es == [] || (!Crosses(y, es[0]) && NoneCross(Step(y, es[0]), es[1..]))
  }

  lemma StepOnePerPair(y: System, e: Event)
    ensures OnePerPair(Step(y, e).tables.chats) <==> OnePerPair(y.tables.chats) && !Crosses(y, e)
  {
    var chats, chats' := y.tables.chats, Step(y, e).tables.chats;
    StepOnEnds(y, e);
    if Creates(y, e) {
      var p := y.sends[e.send];
      HasEitherChat(chats, p.creator, p.recipient);
      AppendOnePerPair(chats, p.creator, p.recipient, chats');
    } else {
      EndsKeptPairs(chats, chats');
      EndsKeptPairs(chats', chats);
    }
  }

  /**
    After every interleaving there is one chat for each pair exactly if no creation took effect when
    the other user of the pair had opened a chat already.
   */
  lemma {:induction false} OnePerPairExactly(y: System, es: seq<Event>)
    ensures OnePerPair(Play(y, es).tables.chats) <==> OnePerPair(y.tables.chats) && NoneCross(y, es)
    decreases |es|
  {
    if es != [] {
      StepOnePerPair(y, es[0]);
      OnePerPairExactly(Step(y, es[0]), es[1..]);
    }
  }

  /** Two users who write to each other for the first time at once get two chats. */
  lemma FirstMessagesCross(a: UserId, b: UserId) returns (es: seq<Event>)
    requires a != b
    ensures Play(START, es).tables.chats == [Chat(a, b, None), Chat(b, a, None)]
  {
    PlaySnoc(START, [], Begin(a, b));
    PlaySnoc(START, [Begin(a, b)], Begin(b, a));
    PlaySnoc(START, [Begin(a, b)] + [Begin(b, a)], Resume(0));
    PlaySnoc(START, [Begin(a, b)] + [Begin(b, a)] + [Resume(0)], Resume(1));
    es := [Begin(a, b)] + [Begin(b, a)] + [Resume(0)] + [Resume(1)];
  }

  /** A user who sends two first messages to another at once gets one chat, and the second message is lost. */
  lemma SecondFirstMessageFails(a: UserId, b: UserId) returns (es: seq<Event>)
    ensures var y := Play(START, es);
            && y.tables.chats == [Chat(a, b, Some(0))] && y.tables.messages == [Some(0)] && y.sends == map[]
            && y.next == 2
  {
    var e0, e1 := Resume(0), Resume(1);
    PlaySnoc(START, [], Begin(a, b));
    PlaySnoc(START, [Begin(a, b)], Begin(a, b));
    var begun := [Begin(a, b)] + [Begin(a, b)];
    PlaySnoc(START, begun, e0);
    assert Play(START, begun + [e0]).tables.chats[0] == Chat(a, b, None);
    PlaySnoc(START, begun + [e0], e1);
    assert Play(START, begun + [e0] + [e1]).sends == map[0 := Storing(0)];
    PlaySnoc(START, begun + [e0] + [e1], e0);
    PlaySnoc(START, begun + [e0] + [e1] + [e0], e0);
    es := begun + [e0] + [e1] + [e0] + [e0];
  }

  // ---------- Imperative form ----------

  class DirectChatTables {
    var chats: seq<Chat>
    var messages: seq<Option<nat>>

    ghost function Model(): Tables
      reads this
    {
      Tables(chats, messages)
    }

    method HandleDirectChatNotExists(creator: UserId, recipient: UserId) returns (chat: nat, isNew: bool)
      modifies this
      ensures Model() == EnsureChat(old(Model()), creator, recipient)
      ensures chat == Find(old(chats), creator, recipient) && chat < |chats| && isNew == (chat == |old(chats)|)
    {
      chat := Find(chats, creator, recipient);
      isNew := chat == |chats|;
      if isNew { chats := chats + [Chat(creator, recipient, None)]; }
    }

    method HandleMessage(chat: nat) returns (message: nat)
      requires chat < |chats|
      modifies this
      ensures message == |old(messages)|
      ensures Model() == UpdateLastSentMessage(CreateMessage(old(Model()), chat), chat, message)
    {
      message := |messages|;
      messages := messages + [Some(chat)];
      chats := chats[chat := chats[chat].(lastSentMessageId := Some(message))];
    }

    method HandleSendDirectMessage(sender: UserId, receiver: UserId)
      modifies this
      ensures Model() == Apply(old(Model()), SendDirect(sender, receiver))
    {
      var chat, _ := HandleDirectChatNotExists(sender, receiver);
      var _ := HandleMessage(chat);
    }
  }
}
