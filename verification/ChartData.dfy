/**
  The admin dashboard's daily series: day buckets laid from the start date to the end of the end
  date, with the rows that fall in each counted.
 */
module ChartData {
  import opened Common

  const DAY_MS := 86_400_000

  datatype User = User(isUser: bool, createdAt: int)
  datatype Message = Message(directChatId: Option<nat>, groupChatId: Option<nat>, isPinNotice: bool, createdAt: int)

  // ---------- Counting ----------

  function Between(times: seq<int>, lo: int, hi: int): nat {
    if times == [] then 0
    else (if lo <= times[0] < hi then 1 else 0) + Between(times[1..], lo, hi)
  }

  function UserTimes(users: seq<User>): seq<int> {
    if users == [] then []
    else
      var rest := UserTimes(users[1..]);
      if users[0].isUser then [users[0].createdAt] + rest else rest
  }

  function DirectTimes(messages: seq<Message>): seq<int> {
    if messages == [] then []
    else
      var rest := DirectTimes(messages[1..]);
      if messages[0].directChatId.Some? && !messages[0].isPinNotice then [messages[0].createdAt] + rest else rest
  }

  function GroupTimes(messages: seq<Message>): seq<int> {
    if messages == [] then []
    else
      var rest := GroupTimes(messages[1..]);
      if messages[0].groupChatId.Some? && !messages[0].isPinNotice then [messages[0].createdAt] + rest else rest
  }

  // ---------- Buckets ----------

  /** setHours(23, 59, 59, 999) in a zone at a fixed offset from UTC. */
  function EndOfDay(date: int, offsetMs: int): int {
    (date + offsetMs) / DAY_MS * DAY_MS + DAY_MS - 1 - offsetMs
  }

  /** The number of loop rounds: the ceiling of the length in days, none if that is not positive. */
  function Days(start: int, end: int): nat {
    if end <= start then 0 else (end - start + DAY_MS - 1) / DAY_MS
  }

  predicate InBucket(t: int, start: int, i: int) { start + i * DAY_MS <= t < start + (i + 1) * DAY_MS }

  /** The buckets cover the range and overshoot it by less than a day; an empty range has none. */
  lemma BucketsCover(start: int, end: int)
    ensures start < end ==> end <= start + Days(start, end) * DAY_MS < end + DAY_MS
    ensures end <= start ==> Days(start, end) == 0
  {
  }

  /** Every instant of the tiled interval is in exactly one bucket, and no other instant is in any. */
  lemma BucketsTile(start: int, end: int, t: int)
    ensures start <= t < start + Days(start, end) * DAY_MS <==>
              exists i: nat | i < Days(start, end) :: InBucket(t, start, i)
    ensures forall i, j :: InBucket(t, start, i) && InBucket(t, start, j) ==> i == j
  {
    var n := Days(start, end);
    if start <= t < start + n * DAY_MS {
      var i: nat := (t - start) / DAY_MS;
      assert i < n;
      assert InBucket(t, start, i);
    }
    if i: nat :| i < n && InBucket(t, start, i) {
      assert (i + 1) * DAY_MS <= n * DAY_MS;
    }
    forall i, j | InBucket(t, start, i) && InBucket(t, start, j) ensures i == j {
      assert i == (t - start) / DAY_MS;
      assert j == (t - start) / DAY_MS;
    }
  }

  lemma {:induction false} BetweenSplits(times: seq<int>, lo: int, mid: int, hi: int)
    requires lo <= mid <= hi
    ensures Between(times, lo, hi) == Between(times, lo, mid) + Between(times, mid, hi)
  {
    if times != [] { BetweenSplits(times[1..], lo, mid, hi); }
  }

  // ---------- Which rows are counted ----------

  /** The numbers of the rows of an interval: users of the role USER, ... */
  function UsersIn(users: seq<User>, lo: int, hi: int): set<nat> {
    set i: nat | i < |users| && users[i].isUser && lo <= users[i].createdAt < hi
  }

  /** ... messages of direct chats, ... */
  function DirectIn(messages: seq<Message>, lo: int, hi: int): set<nat> {
    set i: nat | i < |messages| && messages[i].directChatId != None
      && !messages[i].isPinNotice && lo <= messages[i].createdAt < hi
  }

  /** ... and of groups; neither counts pin notices. */
  function GroupIn(messages: seq<Message>, lo: int, hi: int): set<nat> {
    set i: nat | i < |messages| && messages[i].groupChatId != None
      && !messages[i].isPinNotice && lo <= messages[i].createdAt < hi
  }

  function ChatsIn(times: seq<int>, lo: int, hi: int): set<nat> {
    set i: nat | i < |times| && lo <= times[i] < hi
  }

  lemma AddLast(before: set<nat>, after: set<nat>, last: nat, counted: bool)
    requires last !in before && after == if counted then before + {last} else before
    ensures |after| == |before| + if counted then 1 else 0
  {
  }

  lemma {:induction false} BetweenConcat(a: seq<int>, b: seq<int>, lo: int, hi: int)
    ensures Between(a + b, lo, hi) == Between(a, lo, hi) + Between(b, lo, hi)
  {
    if a == [] {
      assert a + b == b;
    } else {
      assert (a + b)[1..] == a[1..] + b;
      BetweenConcat(a[1..], b, lo, hi);
    }
  }

  lemma {:induction false} UserTimesSnoc(users: seq<User>, u: User)
    ensures UserTimes(users + [u]) == UserTimes(users) + if u.isUser then [u.createdAt] else []
  {
    if users == [] {
      assert [u][1..] == [];
    } else {
      assert (users + [u])[1..] == users[1..] + [u];
      UserTimesSnoc(users[1..], u);
    }
  }

  lemma {:induction false} DirectTimesSnoc(messages: seq<Message>, m: Message)
    ensures DirectTimes(messages + [m]) ==
            DirectTimes(messages) + if m.directChatId.Some? && !m.isPinNotice then [m.createdAt] else []
  {
    if messages == [] {
      assert [m][1..] == [];
    } else {
      assert (messages + [m])[1..] == messages[1..] + [m];
      DirectTimesSnoc(messages[1..], m);
    }
  }

  lemma {:induction false} GroupTimesSnoc(messages: seq<Message>, m: Message)
    ensures GroupTimes(messages + [m]) ==
            GroupTimes(messages) + if m.groupChatId.Some? && !m.isPinNotice then [m.createdAt] else []
  {
    if messages == [] {
      assert [m][1..] == [];
    } else {
      assert (messages + [m])[1..] == messages[1..] + [m];
      GroupTimesSnoc(messages[1..], m);
    }
  }

  lemma One(t: int, lo: int, hi: int)
    ensures Between([t], lo, hi) == if lo <= t < hi then 1 else 0
    ensures Between([], lo, hi) == 0
  {
    assert [t][1..] == [];
  }

  /** A count is the number of the rows it is about. */
  lemma {:induction false} UsersCounted(users: seq<User>, lo: int, hi: int)
    ensures Between(UserTimes(users), lo, hi) == |UsersIn(users, lo, hi)|
  {
    if users != [] {
      var last := |users| - 1;
      var u := users[last];
      assert users == users[..last] + [u];
      UsersCounted(users[..last], lo, hi);
      UserTimesSnoc(users[..last], u);
      BetweenConcat(UserTimes(users[..last]), if u.isUser then [u.createdAt] else [], lo, hi);
      One(u.createdAt, lo, hi);
      AddLast(UsersIn(users[..last], lo, hi), UsersIn(users, lo, hi), last, u.isUser && lo <= u.createdAt < hi);
    }
  }

  lemma {:induction false} DirectCounted(messages: seq<Message>, lo: int, hi: int)
    ensures Between(DirectTimes(messages), lo, hi) == |DirectIn(messages, lo, hi)|
  {
    if messages != [] {
      var last := |messages| - 1;
      var m := messages[last];
      var counted := m.directChatId.Some? && !m.isPinNotice;
      assert messages == messages[..last] + [m];
      DirectCounted(messages[..last], lo, hi);
      DirectTimesSnoc(messages[..last], m);
      BetweenConcat(DirectTimes(messages[..last]), if counted then [m.createdAt] else [], lo, hi);
      One(m.createdAt, lo, hi);
      AddLast(DirectIn(messages[..last], lo, hi), DirectIn(messages, lo, hi), last, counted && lo <= m.createdAt < hi);
    }
  }

  lemma {:induction false} GroupCounted(messages: seq<Message>, lo: int, hi: int)
    ensures Between(GroupTimes(messages), lo, hi) == |GroupIn(messages, lo, hi)|
  {
    if messages != [] {
      var last := |messages| - 1;
      var m := messages[last];
      var counted := m.groupChatId.Some? && !m.isPinNotice;
      assert messages == messages[..last] + [m];
      GroupCounted(messages[..last], lo, hi);
      GroupTimesSnoc(messages[..last], m);
      BetweenConcat(GroupTimes(messages[..last]), if counted then [m.createdAt] else [], lo, hi);
      One(m.createdAt, lo, hi);
      AddLast(GroupIn(messages[..last], lo, hi), GroupIn(messages, lo, hi), last, counted && lo <= m.createdAt < hi);
    }
  }

  lemma {:induction false} ChatsCounted(times: seq<int>, lo: int, hi: int)
    ensures Between(times, lo, hi) == |ChatsIn(times, lo, hi)|
  {
    if times != [] {
      var last := |times| - 1;
      assert times == times[..last] + [times[last]];
      ChatsCounted(times[..last], lo, hi);
      BetweenConcat(times[..last], [times[last]], lo, hi);
      One(times[last], lo, hi);
      AddLast(ChatsIn(times[..last], lo, hi), ChatsIn(times, lo, hi), last, lo <= times[last] < hi);
    }
  }

  /** The adjusted end is the last millisecond of the end date's day in the local zone. */
  lemma EndOfDayIsLast(date: int, offsetMs: int)
    ensures var end := EndOfDay(date, offsetMs);
            date <= end < date + 86_400_000 && (end + 1 + offsetMs) % 86_400_000 == 0
  {
    var q := (date + offsetMs) / DAY_MS;
    assert EndOfDay(date, offsetMs) + 1 + offsetMs == (q + 1) * DAY_MS;
  }

  function Sum(series: seq<nat>): nat {
    if series == [] then 0 else Sum(series[..|series| - 1]) + series[|series| - 1]
  }

  /** A series is right: each entry counts its day, and the entries add up to the rows of the tiled interval. */
  predicate IsSeries(series: seq<nat>, times: seq<int>, start: int) {
    && (forall i | 0 <= i < |series| :: series[i] == Between(times, start + i * DAY_MS, start + (i + 1) * DAY_MS))
    && Sum(series) == Between(times, start, start + |series| * DAY_MS)
  }

  lemma {:induction false} EmptySeries(times: seq<int>, start: int)
    ensures IsSeries([], times, start)
  {
    if times != [] { EmptySeries(times[1..], start); }
  }

  lemma Push(series: seq<nat>, times: seq<int>, start: int, lo: int, hi: int)
    requires IsSeries(series, times, start)
    requires lo == start + |series| * DAY_MS && hi == lo + DAY_MS
    ensures IsSeries(series + [Between(times, lo, hi)], times, start)
  {
    var next := series + [Between(times, lo, hi)];
    assert next[..|series|] == series;
    BetweenSplits(times, start, lo, hi);
  }

  /** The three counts of a day. */
  predicate DayCounted(users: seq<User>, messages: seq<Message>, groupChats: seq<int>, start: int, i: int,
                       newUsers: nat, newMessages: nat, newGroupChats: nat)
  {
    var lo, hi := start + i * 86_400_000, start + (i + 1) * 86_400_000;
    && newUsers == |UsersIn(users, lo, hi)|
    && newMessages == |DirectIn(messages, lo, hi)| + |GroupIn(messages, lo, hi)|
    && newGroupChats == |ChatsIn(groupChats, lo, hi)|
  }

  lemma DayIsCounted(users: seq<User>, messages: seq<Message>, groupChats: seq<int>, start: int, i: int)
    ensures var lo, hi := start + i * DAY_MS, start + (i + 1) * DAY_MS;
            DayCounted(users, messages, groupChats, start, i, Between(UserTimes(users), lo, hi),
                       Between(DirectTimes(messages) + GroupTimes(messages), lo, hi), Between(groupChats, lo, hi))
  {
    var lo, hi := start + i * DAY_MS, start + (i + 1) * DAY_MS;
    UsersCounted(users, lo, hi);
    DirectCounted(messages, lo, hi);
    GroupCounted(messages, lo, hi);
    ChatsCounted(groupChats, lo, hi);
    BetweenConcat(DirectTimes(messages), GroupTimes(messages), lo, hi);
  }

  method GenerateChartData(users: seq<User>, messages: seq<Message>, groupChats: seq<int>, startDate: int, endDate: int,
                           offsetMs: int)
    returns (userGrowth: seq<nat>, messageActivity: seq<nat>, groupChatActivity: seq<nat>)
    ensures |userGrowth| == |messageActivity| == |groupChatActivity| == Days(startDate, EndOfDay(endDate, offsetMs))
    ensures IsSeries(userGrowth, UserTimes(users), startDate)
    ensures IsSeries(messageActivity, DirectTimes(messages) + GroupTimes(messages), startDate)
    ensures IsSeries(groupChatActivity, groupChats, startDate)
    ensures forall i | 0 <= i < |userGrowth| ::
              DayCounted(users, messages, groupChats, startDate, i, userGrowth[i], messageActivity[i],
                groupChatActivity[i])
  {
    var adjustedEndDate := EndOfDay(endDate, offsetMs);
    var days := Days(startDate, adjustedEndDate);
    var userTimes, directTimes, groupTimes := UserTimes(users), DirectTimes(messages), GroupTimes(messages);
    ghost var messageTimes := directTimes + groupTimes;
    userGrowth, messageActivity, groupChatActivity := [], [], [];
    EmptySeries(userTimes, startDate);
    EmptySeries(messageTimes, startDate);
    EmptySeries(groupChats, startDate);
    for i := 0 to days
      invariant |userGrowth| == |messageActivity| == |groupChatActivity| == i
      invariant IsSeries(userGrowth, userTimes, startDate)
      invariant IsSeries(messageActivity, messageTimes, startDate)
      invariant IsSeries(groupChatActivity, groupChats, startDate)
    {
      var currentDate := startDate + i * DAY_MS;
      var nextDate := currentDate + DAY_MS;
      var newUsers := Between(userTimes, currentDate, nextDate);
      var directMessages := Between(directTimes, currentDate, nextDate);
      var groupMessages := Between(groupTimes, currentDate, nextDate);
      var newGroupChats := Between(groupChats, currentDate, nextDate);
      BetweenConcat(directTimes, groupTimes, currentDate, nextDate);
      Push(userGrowth, userTimes, startDate, currentDate, nextDate);
      Push(messageActivity, messageTimes, startDate, currentDate, nextDate);
      Push(groupChatActivity, groupChats, startDate, currentDate, nextDate);
      userGrowth := userGrowth + [newUsers];
      messageActivity := messageActivity + [directMessages + groupMessages];
      groupChatActivity := groupChatActivity + [newGroupChats];
    }
    forall i | 0 <= i < days
      ensures DayCounted(users, messages, groupChats, startDate, i, userGrowth[i], messageActivity[i],
          groupChatActivity[i])
    {
      DayIsCounted(users, messages, groupChats, startDate, i);
    }
  }
}
