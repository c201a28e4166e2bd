/**
  Fetching a chat page by page: the fetch-one-more trick, the inclusive first offset and the
  exclusive later ones, and the re-sorting of each page by a client-supplied time.

  The message table is a sequence in id order (ids are assigned by auto-increment).
 */
module MessagePaging {
  import opened Common

  datatype Message = Message(id: nat, createdAt: int, directChatId: Option<nat>, groupChatId: Option<nat>)

  datatype SortType = TimeAsc | TimeDesc

  /** An absent component of a Prisma filter does not filter. */
  datatype Query = Query(offset: Option<nat>, inclusive: bool, directChatId: Option<nat>, groupChatId: Option<nat>)

  datatype Page = Page(hasMoreMessages: bool, directMessages: seq<Message>)

  predicate Ascending(table: seq<Message>) {
    forall i, j | 0 <= i < j < |table| :: table[i].id < table[j].id
  }

  predicate Descending(s: seq<Message>) {
    forall i, j | 0 <= i < j < |s| :: s[i].id > s[j].id
  }

  predicate InChat(m: Message, directChatId: Option<nat>, groupChatId: Option<nat>) {
    (directChatId.Some? ==> m.directChatId == directChatId) && (groupChatId.Some? ==> m.groupChatId == groupChatId)
  }

  predicate UpTo(m: Message, offset: Option<nat>, inclusive: bool) {
    offset.Some? ==> m.id < offset.value || (inclusive && m.id == offset.value)
  }

  predicate Matches(m: Message, q: Query) {
    UpTo(m, q.offset, q.inclusive) && InChat(m, q.directChatId, q.groupChatId)
  }

  function Min(a: nat, b: nat): nat { if a <= b then a else b }

  // ---------- The database query ----------

  /** All matching rows, greatest id first. */
  function Selected(table: seq<Message>, q: Query): seq<Message> {
    if table == [] then []
    else
      var last := |table| - 1;
      (if Matches(table[last], q) then [table[last]] else []) + Selected(table[..last], q)
  }

  /** getOlderDirectMessages: `take` rows of the selection. */
  function GetOlderDirectMessages(table: seq<Message>, q: Query, take: nat): seq<Message> {
    var all := Selected(table, q);
    all[..Min(take, |all|)]
  }

  /** The selection is determined by what it contains and its order. */
  lemma {:induction false} SelectedIsExact(table: seq<Message>, q: Query)
    requires Ascending(table)
    ensures forall m :: m in Selected(table, q) <==> m in table && Matches(m, q)
    ensures Descending(Selected(table, q))
  {
    if table != [] {
      var last := |table| - 1;
      var rest := Selected(table[..last], q);
      SelectedIsExact(table[..last], q);
      assert forall m :: m in table <==> m in table[..last] || m == table[last];
      forall j | 0 <= j < |rest| ensures rest[j].id < table[last].id {
        assert rest[j] in table[..last];
      }
    }
  }

  lemma {:induction false} DescendingUnique(a: seq<Message>, b: seq<Message>)
    requires Descending(a) && Descending(b) && (forall m :: m in a <==> m in b)
    ensures a == b
  {
    assert |b| > 0 ==> b[0] in a;
    if a != [] {
      assert a[0] in b;
      assert b[0] in a;
      assert a[0] == b[0];
      forall m ensures m in a[1..] <==> m in b[1..] {
        assert m in a[1..] <==> m in a && m != a[0];
        assert m in b[1..] <==> m in b && m != b[0];
      }
      DescendingUnique(a[1..], b[1..]);
    }
  }

  /** Resuming strictly below the n-th row selects exactly the rows after it. */
  lemma ResumeBelow(table: seq<Message>, q: Query, n: nat)
    requires Ascending(table) && n < |Selected(table, q)|
    ensures Selected(table, q.(offset := Some(Selected(table, q)[n].id), inclusive := false)) ==
        Selected(table, q)[n + 1..]
  {
    var all := Selected(table, q);
    var q' := q.(offset := Some(all[n].id), inclusive := false);
    SelectedIsExact(table, q);
    SelectedIsExact(table, q');
    assert all[n] in all;
    forall m ensures m in Selected(table, q') <==> m in all[n + 1..] {
      if m in all && m.id < all[n].id {
        var i :| 0 <= i < |all| && all[i] == m;
        assert i > n && all[n + 1..][i - (n + 1)] == m;
      }
    }
    DescendingUnique(Selected(table, q'), all[n + 1..]);
  }

  // ---------- sortFetchedMessages ----------

  /** JavaScript's sort is stable: equal times keep their order. */
  function InsertByTime(m: Message, s: seq<Message>): seq<Message> {
    if s == [] || m.createdAt <= s[0].createdAt then [m] + s else [s[0]] + InsertByTime(m, s[1..])
  }

  function SortByTime(s: seq<Message>): seq<Message> {
    if s == [] then [] else InsertByTime(s[0], SortByTime(s[1..]))
  }

  function SortFetchedMessages(s: seq<Message>, sortType: SortType): seq<Message> {
    match sortType
    case TimeAsc => SortByTime(s)
    case TimeDesc => s
  }

  predicate TimeSorted(s: seq<Message>) {
    forall i, j | 0 <= i < j < |s| :: s[i].createdAt <= s[j].createdAt
  }

  /** The messages of one instant, in order. */
  function AtTime(s: seq<Message>, t: int): seq<Message> {
    if s == [] then []
    else if s[0].createdAt == t then [s[0]] + AtTime(s[1..], t)
    else AtTime(s[1..], t)
  }

  lemma {:induction false} InsertIsPermutation(m: Message, s: seq<Message>)
    ensures multiset(InsertByTime(m, s)) == multiset{m} + multiset(s)
  {
    if s != [] && m.createdAt > s[0].createdAt {
      InsertIsPermutation(m, s[1..]);
      assert s == [s[0]] + s[1..];
    }
  }

  lemma {:induction false} InsertIsSorted(m: Message, s: seq<Message>)
    requires TimeSorted(s)
    ensures TimeSorted(InsertByTime(m, s))
  {
    if s != [] && m.createdAt > s[0].createdAt {
      var tail := InsertByTime(m, s[1..]);
      InsertIsSorted(m, s[1..]);
      InsertIsPermutation(m, s[1..]);
      forall x <- tail ensures s[0].createdAt <= x.createdAt {
        assert x in multiset(tail);
        assert x == m || x in s[1..];
      }
    } else if s != [] {
      forall x <- s ensures m.createdAt <= x.createdAt {}
    }
  }

  lemma {:induction false} InsertKeepsInstants(m: Message, s: seq<Message>, t: int)
    requires TimeSorted(s)
    ensures AtTime(InsertByTime(m, s), t) == if m.createdAt == t then [m] + AtTime(s, t) else AtTime(s, t)
  {
    if s != [] && m.createdAt > s[0].createdAt { InsertKeepsInstants(m, s[1..], t); }
  }

  /** The sort is a permutation, in time order, and keeps the order of the messages of one instant. */
  lemma {:induction false} SortIsExact(s: seq<Message>, t: int)
    ensures multiset(SortByTime(s)) == multiset(s)
    ensures TimeSorted(SortByTime(s))
    ensures AtTime(SortByTime(s), t) == AtTime(s, t)
  {
    if s != [] {
      SortIsExact(s[1..], t);
      InsertIsPermutation(s[0], SortByTime(s[1..]));
      InsertIsSorted(s[0], SortByTime(s[1..]));
      InsertKeepsInstants(s[0], SortByTime(s[1..]), t);
      assert s == [s[0]] + s[1..];
    }
  }

  // ---------- getOlderDirectMessagesHandler ----------

  /** The rows as shown: as fetched, or rearranged into time order with equal times left as fetched. */
  ghost predicate Shows(r: seq<Message>, rows: seq<Message>, sortType: SortType) {
    && multiset(r) == multiset(rows)
    && (sortType.TimeDesc? ==> r == rows)
    && (sortType.TimeAsc? ==> TimeSorted(r) && forall t :: AtTime(r, t) == AtTime(rows, t))
  }

  lemma SortShows(rows: seq<Message>, sortType: SortType)
    ensures Shows(SortFetchedMessages(rows, sortType), rows, sortType)
  {
    if sortType.TimeAsc? {
      SortIsExact(rows, 0);
      forall t ensures AtTime(SortByTime(rows), t) == AtTime(rows, t) { SortIsExact(rows, t); }
    }
  }

  /** The page a fetch is to return: the first `limit` selected rows, and whether there are more. */
  ghost predicate IsPage(table: seq<Message>, q: Query, limit: nat, sortType: SortType, p: Page) {
    var all := Selected(table, q);
    && (p.hasMoreMessages <==> |all| > limit)
    && Shows(p.directMessages, all[..Min(limit, |all|)], sortType)
  }

  method GetOlderDirectMessagesHandler(table: seq<Message>, messageOffset: Option<nat>, directChatId: Option<nat>,
                                       groupChatId: Option<nat>, limit: nat, isFirstTime: bool, sortType: SortType)
    returns (r: Page)
    ensures IsPage(table, Query(messageOffset, isFirstTime, directChatId, groupChatId), limit, sortType, r)
  {
    ghost var all := Selected(table, Query(messageOffset, isFirstTime, directChatId, groupChatId));
    ghost var rows := all[..Min(limit, |all|)];
    var messages := GetOlderDirectMessages(table, Query(messageOffset, isFirstTime, directChatId, groupChatId),
        limit + 1);
    var sortedMessages: Option<seq<Message>> := None;
    if |messages| > 0 {
      if |messages| > limit {
        sortedMessages := Some(messages[..|messages| - 1]);
      } else {
        sortedMessages := Some(messages);
      }
      assert sortedMessages.value == rows;
      SortShows(rows, sortType);
      sortedMessages := Some(SortFetchedMessages(sortedMessages.value, sortType));
    }
    r := Page(|messages| > limit, if sortedMessages.Some? then sortedMessages.value else []);
  }

  /** The message may be shown: of the chats asked for, and below the offset, or at it on a first fetch. */
  predicate Wanted(m: Message, offset: Option<nat>, isFirstTime: bool, directChatId: Option<nat>,
                   groupChatId: Option<nat>)
  {
    && (directChatId.Some? ==> m.directChatId == directChatId)
    && (groupChatId.Some? ==> m.groupChatId == groupChatId)
    && (offset.Some? ==> if isFirstTime then m.id <= offset.value else m.id < offset.value)
  }

  /**
    A page holds only wanted messages, at most `limit`, none twice; it leaves out a wanted one only if
    it is full, all it shows is newer, and it says that there are more.
   */
  lemma PageIsExact(table: seq<Message>, offset: Option<nat>, isFirstTime: bool, directChatId: Option<nat>,
                    groupChatId: Option<nat>, limit: nat, sortType: SortType, p: Page)
    requires Ascending(table)
    requires IsPage(table, Query(offset, isFirstTime, directChatId, groupChatId), limit, sortType, p)
    ensures |p.directMessages| <= limit
    ensures forall m <- p.directMessages ::
              m in table && Wanted(m, offset, isFirstTime, directChatId, groupChatId)
                && multiset(p.directMessages)[m] == 1
    ensures p.hasMoreMessages <==>
              exists m <- table :: Wanted(m, offset, isFirstTime, directChatId, groupChatId) && m !in p.directMessages
    ensures forall m <- table | Wanted(m, offset, isFirstTime, directChatId, groupChatId) && m !in p.directMessages ::
              |p.directMessages| == limit && forall x <- p.directMessages :: x.id > m.id
  {
    var q := Query(offset, isFirstTime, directChatId, groupChatId);
    var all := Selected(table, q);
    var n := Min(limit, |all|);
    SelectedIsExact(table, q);
    assert forall m :: Matches(m, q) <==> Wanted(m, offset, isFirstTime, directChatId, groupChatId);
    PartOfDescending(all, n, p.directMessages);
    if p.hasMoreMessages {
      assert all[n] in all && all[n] !in p.directMessages;
    }
  }

  /** The first `n` of rows in falling id order, in any order. */
  lemma PartOfDescending(all: seq<Message>, n: nat, page: seq<Message>)
    requires Descending(all) && n <= |all| && multiset(page) == multiset(all[..n])
    ensures |page| == n
    ensures forall m <- page :: m in all && multiset(page)[m] == 1
    ensures forall m <- all | m !in page :: n < |all| && forall x <- page :: x.id > m.id
    ensures n < |all| ==> all[n] !in page
  {
    var first := all[..n];
    assert |multiset(page)| == |page| && |multiset(first)| == n;
    assert forall m :: m in page <==> m in multiset(page);
    assert forall m :: m in first <==> m in multiset(first);
    forall m <- page ensures m in all && multiset(page)[m] == 1 { OnceInDescending(first, m); }
    SplitAt(all, n);
  }

  lemma SplitAt(all: seq<Message>, n: nat)
    requires Descending(all) && n <= |all|
    ensures forall m <- all :: m in all[..n] || m in all[n..]
    ensures forall x <- all[..n], m <- all[n..] :: x.id > m.id
    ensures n < |all| ==> all[n] in all[n..] && all[n] !in all[..n]
  {
    assert all == all[..n] + all[n..];
    if n < |all| { assert all[n] == all[n..][0]; }
  }

  lemma {:induction false} OnceInDescending(s: seq<Message>, m: Message)
    requires Descending(s) && m in s
    ensures multiset(s)[m] == 1
  {
    assert s == [s[0]] + s[1..];
    if m in s[1..] {
      OnceInDescending(s[1..], m);
      assert s[0] != m;
    } else {
      assert multiset(s[1..])[m] == 0;
    }
  }

  // ---------- Walking through a chat ----------

  function LeastId(s: seq<Message>): nat
    requires s != []
  {
    if |s| == 1 then s[0].id else Min(s[0].id, LeastId(s[1..]))
  }

  lemma {:induction false} LeastIdIsLeast(s: seq<Message>)
    requires s != []
    ensures (exists m <- s :: m.id == LeastId(s)) && (forall m <- s :: LeastId(s) <= m.id)
  {
    if |s| == 1 {
      assert s[0] in s;
    } else {
      LeastIdIsLeast(s[1..]);
      var m :| m in s[1..] && m.id == LeastId(s[1..]);
      assert s[0] in s && m in s;
    }
  }

  lemma LeastOfPage(rows: seq<Message>, page: seq<Message>)
    requires rows != [] && Descending(rows) && multiset(page) == multiset(rows)
    ensures page != [] && LeastId(page) == rows[|rows| - 1].id
  {
    assert rows[0] in multiset(page);
    LeastIdIsLeast(page);
    assert forall m :: m in page <==> m in multiset(page);
    assert rows[|rows| - 1] in multiset(page);
    var m :| m in page && m.id == LeastId(page);
    assert m in multiset(rows);
  }

  /**
    The pages a client collects: the first fetch is inclusive, each later one resumes strictly
    below the least id of the page before, until a page says there is no more.
   */
  ghost predicate IsWalk(table: seq<Message>, q: Query, limit: nat, sortType: SortType, pages: seq<Page>)
    decreases |pages|
  {
    && pages != []
    && IsPage(table, q, limit, sortType, pages[0])
    && (if pages[0].hasMoreMessages && pages[0].directMessages != []
        then IsWalk(table, q.(offset := Some(LeastId(pages[0].directMessages)), inclusive := false), limit, sortType,
          pages[1..])
        else |pages| == 1)
  }

  function Collected(pages: seq<Page>): multiset<Message> {
    if pages == [] then multiset{} else multiset(pages[0].directMessages) + Collected(pages[1..])
  }

  /** Fetches needed for `n` messages: one, and one more for each further `limit`. */
  function PageCount(n: nat, limit: nat): nat
    requires limit >= 1
  {
    if n <= limit then 1 else 1 + PageCount(n - limit, limit)
  }

  /** That is max(1, ceil(n / limit)). */
  lemma {:induction false} PageCountIsCeiling(n: nat, limit: nat)
    requires limit >= 1
    ensures n <= PageCount(n, limit) * limit
    ensures n > 0 ==> (PageCount(n, limit) - 1) * limit < n
    ensures n == 0 ==> PageCount(n, limit) == 1
    decreases n
  {
    if n > limit {
      PageCountIsCeiling(n - limit, limit);
      var k := PageCount(n - limit, limit);
      assert (k + 1) * limit == k * limit + limit;
      assert k * limit == (k - 1) * limit + limit;
    }
  }

  /** Where the walk stands after a page that is not the last. */
  lemma NextFetch(table: seq<Message>, q: Query, limit: nat, sortType: SortType, p: Page)
    requires Ascending(table) && limit >= 1 && IsPage(table, q, limit, sortType, p) && p.hasMoreMessages
    ensures p.directMessages != []
    ensures Selected(table, q.(offset := Some(LeastId(p.directMessages)), inclusive := false)) ==
        Selected(table, q)[limit..]
  {
    var all := Selected(table, q);
    SelectedIsExact(table, q);
    var rows := all[..limit];
    assert Descending(rows);
    LeastOfPage(rows, p.directMessages);
    ResumeBelow(table, q, limit - 1);
  }

  lemma CollectedStep(all: seq<Message>, pages: seq<Page>, n: nat)
    requires pages != [] && n <= |all|
    requires multiset(pages[0].directMessages) == multiset(all[..n]) && Collected(pages[1..]) == multiset(all[n..])
    ensures Collected(pages) == multiset(all)
  {
    assert all == all[..n] + all[n..];
  }

  /**
    A walk returns every selected message exactly once, whatever the sort type and the times, and
    takes max(1, ceil(n / limit)) fetches.
   */
  lemma {:induction false} WalkReturnsEachOnce(table: seq<Message>, q: Query, limit: nat, sortType: SortType,
                                               pages: seq<Page>)
    requires Ascending(table) && limit >= 1
    requires IsWalk(table, q, limit, sortType, pages)
    ensures Collected(pages) == multiset(Selected(table, q))
    ensures |pages| == PageCount(|Selected(table, q)|, limit)
    decreases |pages|
  {
    var all := Selected(table, q);
    if pages[0].hasMoreMessages {
      NextFetch(table, q, limit, sortType, pages[0]);
      WalkReturnsEachOnce(table, q.(offset := Some(LeastId(pages[0].directMessages)), inclusive := false), limit,
        sortType, pages[1..]);
      CollectedStep(all, pages, limit);
    } else {
      assert all[|all|..] == [];
      CollectedStep(all, pages, |all|);
    }
  }

  /** A walk exists for every table and query. */
  lemma WalkExists(table: seq<Message>, q: Query, limit: nat, sortType: SortType) returns (pages: seq<Page>)
    requires Ascending(table) && limit >= 1
    ensures IsWalk(table, q, limit, sortType, pages)
    decreases |Selected(table, q)|
  {
    var all := Selected(table, q);
    var rows := all[..Min(limit, |all|)];
    SortShows(rows, sortType);
    var p := Page(|all| > limit, SortFetchedMessages(rows, sortType));
    assert IsPage(table, q, limit, sortType, p);
    if p.hasMoreMessages {
      NextFetch(table, q, limit, sortType, p);
      var rest := WalkExists(table, q.(offset := Some(LeastId(p.directMessages)), inclusive := false), limit, sortType);
      pages := [p] + rest;
      assert pages[1..] == rest;
    } else {
      pages := [p];
    }
  }

  lemma FirstPageIsAbove(table: seq<Message>, q: Query, limit: nat, sortType: SortType, pages: seq<Page>,
                         j: nat, m: Message, older: Message)
    requires Ascending(table) && limit >= 1 && IsWalk(table, q, limit, sortType, pages)
    requires 0 < j < |pages| && m in pages[0].directMessages && older in pages[j].directMessages
    ensures m.id > older.id
  {
    var all := Selected(table, q);
    var q' := q.(offset := Some(LeastId(pages[0].directMessages)), inclusive := false);
    SelectedIsExact(table, q);
    NextFetch(table, q, limit, sortType, pages[0]);
    WalkReturnsEachOnce(table, q', limit, sortType, pages[1..]);
    CollectedHas(pages[1..], j - 1, older);
    SplitDescending(all, limit, m, older, pages[0].directMessages, Collected(pages[1..]));
  }

  lemma SplitDescending(all: seq<Message>, n: nat, m: Message, older: Message, page: seq<Message>,
                        rest: multiset<Message>)
    requires Descending(all) && n <= |all| && multiset(page) == multiset(all[..n]) && rest == multiset(all[n..])
    requires m in page && older in rest
    ensures m.id > older.id
  {
    assert m in multiset(page);
    assert m in all[..n] && older in all[n..];
  }

  /** Whatever is on a page of a walk has a greater id than whatever is on a later page. */
  lemma {:induction false} WalkGoesDown(table: seq<Message>, q: Query, limit: nat, sortType: SortType, pages: seq<Page>,
                                        i: nat, j: nat, m: Message, older: Message)
    requires Ascending(table) && limit >= 1 && IsWalk(table, q, limit, sortType, pages)
    requires i < j < |pages| && m in pages[i].directMessages && older in pages[j].directMessages
    ensures m.id > older.id
    decreases i
  {
    if i == 0 {
      FirstPageIsAbove(table, q, limit, sortType, pages, j, m, older);
    } else {
      var q' := q.(offset := Some(LeastId(pages[0].directMessages)), inclusive := false);
      WalkGoesDown(table, q', limit, sortType, pages[1..], i - 1, j - 1, m, older);
    }
  }

  lemma {:induction false} CollectedHas(pages: seq<Page>, j: nat, m: Message)
    requires j < |pages| && m in pages[j].directMessages
    ensures m in Collected(pages)
  {
    if j > 0 { CollectedHas(pages[1..], j - 1, m); }
  }

  // ---------- Messages that come in while the client pages ----------

  /** Rows have only been appended, with greater ids. */
  predicate Grown(table: seq<Message>, table': seq<Message>) {
    table <= table' && Ascending(table')
  }

  /** What was appended is above the offset and does not show in the selection. */
  lemma {:induction false} SelectedGrown(table: seq<Message>, table': seq<Message>, q: Query)
    requires Grown(table, table') && q.offset.Some? && (exists m <- table :: q.offset.value <= m.id)
    ensures Selected(table', q) == Selected(table, q)
    decreases |table'|
  {
    if table != table' {
      var last := |table'| - 1;
      var m :| m in table && q.offset.value <= m.id;
      var i :| 0 <= i < |table| && table[i] == m;
      assert table'[i] == m && table'[last].id > m.id;
      SelectedGrown(table, table'[..last], q);
    }
  }

  /** As `IsWalk`, with each page fetched from the table as it is by then. */
  ghost predicate IsGrowingWalk(tables: seq<seq<Message>>, q: Query, limit: nat, sortType: SortType, pages: seq<Page>)
    decreases |pages|
  {
    && pages != [] && |tables| == |pages|
    && IsPage(tables[0], q, limit, sortType, pages[0])
    && (if pages[0].hasMoreMessages && pages[0].directMessages != []
        then |pages| > 1 && Grown(tables[0], tables[1])
             && IsGrowingWalk(tables[1..], q.(offset := Some(LeastId(pages[0].directMessages)), inclusive := false),
                 limit,
                              sortType, pages[1..])
        else |pages| == 1)
  }

  /** The least id on a page is that of a row. */
  lemma LeastIsRow(table: seq<Message>, q: Query, limit: nat, sortType: SortType, p: Page)
    requires Ascending(table) && IsPage(table, q, limit, sortType, p) && p.directMessages != []
    ensures exists m <- table :: m.id == LeastId(p.directMessages)
  {
    var all := Selected(table, q);
    LeastIdIsLeast(p.directMessages);
    SelectedIsExact(table, q);
    var m :| m in p.directMessages && m.id == LeastId(p.directMessages);
    assert m in multiset(p.directMessages);
    assert m in all[..Min(limit, |all|)];
    assert m in all;
  }

  /** A walk through the grown table below an old offset is one through the old table. */
  lemma {:induction false} WalkBelow(table: seq<Message>, table': seq<Message>, q: Query, limit: nat,
                                     sortType: SortType,
                                     pages: seq<Page>)
    requires Ascending(table) && Grown(table, table') && q.offset.Some? && (exists m <- table :: q.offset.value <= m.id)
    requires IsWalk(table', q, limit, sortType, pages)
    ensures IsWalk(table, q, limit, sortType, pages)
    decreases |pages|
  {
    SelectedGrown(table, table', q);
    if pages[0].hasMoreMessages && pages[0].directMessages != [] {
      LeastIsRow(table, q, limit, sortType, pages[0]);
      var q' := q.(offset := Some(LeastId(pages[0].directMessages)), inclusive := false);
      WalkBelow(table, table', q', limit, sortType, pages[1..]);
    }
  }

  lemma {:induction false} GrowingWalkIsWalk(tables: seq<seq<Message>>, q: Query, limit: nat, sortType: SortType,
                                             pages: seq<Page>)
    requires IsGrowingWalk(tables, q, limit, sortType, pages) && Ascending(tables[0])
    ensures IsWalk(tables[0], q, limit, sortType, pages)
    decreases |pages|
  {
    if pages[0].hasMoreMessages && pages[0].directMessages != [] {
      var q' := q.(offset := Some(LeastId(pages[0].directMessages)), inclusive := false);
      GrowingWalkIsWalk(tables[1..], q', limit, sortType, pages[1..]);
      LeastIsRow(tables[0], q, limit, sortType, pages[0]);
      WalkBelow(tables[0], tables[1], q', limit, sortType, pages[1..]);
    }
  }

  /**
    Messages that come in between the fetches do not disturb a walk: it returns what was there at its
    start, each once.
   */
  lemma GrowingWalkReturnsEachOnce(tables: seq<seq<Message>>, q: Query, limit: nat, sortType: SortType,
                                   pages: seq<Page>)
    requires limit >= 1 && IsGrowingWalk(tables, q, limit, sortType, pages) && Ascending(tables[0])
    ensures Collected(pages) == multiset(Selected(tables[0], q))
    ensures |pages| == PageCount(|Selected(tables[0], q)|, limit)
  {
    GrowingWalkIsWalk(tables, q, limit, sortType, pages);
    WalkReturnsEachOnce(tables[0], q, limit, sortType, pages);
  }

  /** A limit of zero stops at once with nothing, and says there is more exactly when there is anything. */
  lemma LimitZeroReturnsNothing(table: seq<Message>, q: Query, sortType: SortType, pages: seq<Page>)
    requires IsWalk(table, q, 0, sortType, pages)
    ensures Collected(pages) == multiset{}
    ensures pages[0].hasMoreMessages <==> Selected(table, q) != []
  {
    var p := pages[0].directMessages;
    assert multiset(p) == multiset(Selected(table, q)[..0]);
    assert |p| == |multiset(p)|;
  }

  // ---------- getNewerDirectMessages ----------

  /** The rows a reconnecting client is sent at most, unless it asks for another number. */
  const RECOVERY_LIMIT := 20

  predicate Above(m: Message, offset: nat, directChatId: Option<nat>, groupChatId: Option<nat>) {
    m.id > offset && InChat(m, directChatId, groupChatId)
  }

  /** All rows above the offset, least id first. */
  function Newer(table: seq<Message>, offset: nat, directChatId: Option<nat>, groupChatId: Option<nat>): seq<Message> {
    if table == [] then []
    else
      var rest := Newer(table[1..], offset, directChatId, groupChatId);
      if Above(table[0], offset, directChatId, groupChatId) then [table[0]] + rest else rest
  }

  /** `limit` rows of those. */
  function GetNewerDirectMessages(table: seq<Message>, offset: nat, directChatId: Option<nat>, groupChatId: Option<nat>,
                                  limit: nat): seq<Message> {
    var all := Newer(table, offset, directChatId, groupChatId);
    all[..Min(limit, |all|)]
  }

  lemma {:induction false} NewerIsExact(table: seq<Message>, offset: nat, directChatId: Option<nat>,
                                        groupChatId: Option<nat>)
    ensures forall m :: m in Newer(table, offset, directChatId, groupChatId) <==>
                        m in table && Above(m, offset, directChatId, groupChatId)
    ensures Ascending(table) ==> Ascending(Newer(table, offset, directChatId, groupChatId))
  {
    if table != [] {
      var rest := Newer(table[1..], offset, directChatId, groupChatId);
      NewerIsExact(table[1..], offset, directChatId, groupChatId);
      assert forall m :: m in table <==> m == table[0] || m in table[1..];
      if Ascending(table) {
        forall j | 0 <= j < |rest| ensures rest[j].id > table[0].id {
          assert rest[j] in table[1..];
        }
        assert Ascending([table[0]] + rest);
      }
    }
  }

  /**
    The fetch returns matching rows in ascending id order, as many as the limit allows, and every one
    left out is newer.
   */
  lemma NewerFetchIsExact(table: seq<Message>, offset: nat, directChatId: Option<nat>, groupChatId: Option<nat>,
                          limit: nat)
    requires Ascending(table)
    ensures var r := GetNewerDirectMessages(table, offset, directChatId, groupChatId, limit);
            && Ascending(r) && |r| <= limit
            && (forall m <- r :: m in table && m.id > offset && Wanted(m, None, true, directChatId, groupChatId))
            && (forall m <- table | m.id > offset && Wanted(m, None, true, directChatId, groupChatId) && m !in r ::
                  |r| == limit && forall x <- r :: x.id < m.id)
  {
    var all := Newer(table, offset, directChatId, groupChatId);
    var r := GetNewerDirectMessages(table, offset, directChatId, groupChatId, limit);
    NewerIsExact(table, offset, directChatId, groupChatId);
    assert forall m :: Above(m, offset, directChatId, groupChatId) <==>
                         m.id > offset && Wanted(m, None, true, directChatId, groupChatId);
    forall m <- r ensures m in all {}
    forall m <- table | m.id > offset && Wanted(m, None, true, directChatId, groupChatId) && m !in r
      ensures |r| == limit && forall x <- r :: x.id < m.id
    {
      var i :| 0 <= i < |all| && all[i] == m;
    }
  }

  function Reverse(s: seq<Message>): seq<Message> {
    if s == [] then [] else Reverse(s[1..]) + [s[0]]
  }

  lemma {:induction false} ReverseIsExact(s: seq<Message>)
    ensures |Reverse(s)| == |s| && (forall m :: m in Reverse(s) <==> m in s)
    ensures Ascending(s) ==> Descending(Reverse(s))
  {
    if s != [] {
      ReverseIsExact(s[1..]);
      assert forall m :: m in s <==> m == s[0] || m in s[1..];
      if Ascending(s) {
        forall i | 0 <= i < |s| - 1 ensures Reverse(s[1..])[i].id > s[0].id {
          assert Reverse(s[1..])[i] in s[1..];
        }
      }
    }
  }

  lemma DescendingConcat(a: seq<Message>, b: seq<Message>)
    requires Descending(a) && Descending(b) && forall x <- a, y <- b :: x.id > y.id
    ensures Descending(a + b)
  {
    forall i, j | 0 <= i < j < |a + b| ensures (a + b)[i].id > (a + b)[j].id {
      if i < |a| <= j { assert a[i] in a && b[j - |a|] in b; }
    }
  }

  /** All that is newer and what can be paged back through are the whole chat, cut at the offset. */
  lemma AllNewerAndOlder(table: seq<Message>, offset: nat, directChatId: Option<nat>, groupChatId: Option<nat>)
    requires Ascending(table)
    ensures Reverse(Newer(table, offset, directChatId, groupChatId))
            + Selected(table, Query(Some(offset), true, directChatId, groupChatId))
         == Selected(table, Query(None, true, directChatId, groupChatId))
  {
    var up := Newer(table, offset, directChatId, groupChatId);
    var down := Selected(table, Query(Some(offset), true, directChatId, groupChatId));
    NewerIsExact(table, offset, directChatId, groupChatId);
    ReverseIsExact(up);
    SelectedIsExact(table, Query(Some(offset), true, directChatId, groupChatId));
    SelectedIsExact(table, Query(None, true, directChatId, groupChatId));
    DescendingConcat(Reverse(up), down);
    DescendingUnique(Reverse(up) + down, Selected(table, Query(None, true, directChatId, groupChatId)));
  }

  /** One fetch of newer rows and what is at or below the offset are the whole chat. */
  ghost predicate Completes(table: seq<Message>, offset: nat, directChatId: Option<nat>, groupChatId: Option<nat>,
                            limit: nat)
  {
    Reverse(GetNewerDirectMessages(table, offset, directChatId, groupChatId, limit))
    + Selected(table, Query(Some(offset), true, directChatId, groupChatId))
    == Selected(table, Query(None, true, directChatId, groupChatId))
  }

  /** That is so exactly if no more rows are newer than the limit; otherwise a reconnecting client misses some. */
  lemma NewerFetchCompletesExactly(table: seq<Message>, offset: nat, directChatId: Option<nat>,
                                   groupChatId: Option<nat>, limit: nat)
    requires Ascending(table)
    ensures Completes(table, offset, directChatId, groupChatId, limit) <==>
            |Newer(table, offset, directChatId, groupChatId)| <= limit
  {
    var all := Newer(table, offset, directChatId, groupChatId);
    AllNewerAndOlder(table, offset, directChatId, groupChatId);
    ReverseIsExact(all);
    ReverseIsExact(all[..Min(limit, |all|)]);
    if |all| <= limit { assert all[..|all|] == all; }
  }

  /** A chat of this many messages, with ids from 1. */
  function Chat(n: nat, directChatId: nat): (table: seq<Message>)
    ensures |table| == n && Ascending(table)
    ensures forall i | 0 <= i < n :: table[i] == Message(i + 1, 0, Some(directChatId), None)
  {
    seq(n, i requires 0 <= i < n => Message(i + 1, 0, Some(directChatId), None))
  }

  lemma {:induction false} AllAbove(table: seq<Message>, offset: nat, directChatId: Option<nat>,
                                    groupChatId: Option<nat>)
    requires forall m <- table :: Above(m, offset, directChatId, groupChatId)
    ensures Newer(table, offset, directChatId, groupChatId) == table
  {
    if table != [] {
      assert table[0] in table;
      AllAbove(table[1..], offset, directChatId, groupChatId);
    }
  }

  /** A client that has seen the first message of a chat when twenty-one more have come. */
  lemma RecoveryMissesMessages(directChatId: nat)
    ensures !Completes(Chat(22, directChatId), 1, Some(directChatId), None, RECOVERY_LIMIT) && RECOVERY_LIMIT == 20
  {
    var table := Chat(22, directChatId);
    assert !Above(table[0], 1, Some(directChatId), None);
    AllAbove(table[1..], 1, Some(directChatId), None);
    NewerFetchCompletesExactly(table, 1, Some(directChatId), None, RECOVERY_LIMIT);
  }

  // ---------- Walking forward ----------

  lemma {:induction false} AscendingUnique(a: seq<Message>, b: seq<Message>)
    requires Ascending(a) && Ascending(b) && (forall m :: m in a <==> m in b)
    ensures a == b
  {
    assert |b| > 0 ==> b[0] in a;
    if a != [] {
      assert a[0] in b;
      assert b[0] in a;
      assert a[0] == b[0];
      forall m ensures m in a[1..] <==> m in b[1..] {
        assert m in a[1..] <==> m in a && m != a[0];
        assert m in b[1..] <==> m in b && m != b[0];
      }
      AscendingUnique(a[1..], b[1..]);
    }
  }

  /** Resuming above the n-th newer row finds exactly the rows after it. */
  lemma ResumeAbove(table: seq<Message>, offset: nat, directChatId: Option<nat>, groupChatId: Option<nat>, n: nat)
    requires Ascending(table) && n < |Newer(table, offset, directChatId, groupChatId)|
    ensures var all := Newer(table, offset, directChatId, groupChatId);
            Newer(table, all[n].id, directChatId, groupChatId) == all[n + 1..]
  {
    var all := Newer(table, offset, directChatId, groupChatId);
    var rest := Newer(table, all[n].id, directChatId, groupChatId);
    NewerIsExact(table, offset, directChatId, groupChatId);
    NewerIsExact(table, all[n].id, directChatId, groupChatId);
    assert all[n] in all;
    forall m ensures m in rest <==> m in all[n + 1..] {
      if m in all && m.id > all[n].id {
        var i :| 0 <= i < |all| && all[i] == m;
        assert i > n && all[n + 1..][i - (n + 1)] == m;
      }
    }
    AscendingUnique(rest, all[n + 1..]);
  }

  /** The fetches of a client that goes on above the last (and greatest) id it was sent until a fetch is not full. */
  ghost predicate IsForwardWalk(table: seq<Message>, offset: nat, directChatId: Option<nat>, groupChatId: Option<nat>,
                                limit: nat, fetches: seq<seq<Message>>)
    decreases |fetches|
  {
    && fetches != []
    && fetches[0] == GetNewerDirectMessages(table, offset, directChatId, groupChatId, limit)
    && (if |fetches[0]| == limit > 0
        then IsForwardWalk(table, fetches[0][limit - 1].id, directChatId, groupChatId, limit, fetches[1..])
        else |fetches| == 1)
  }

  function Joined(fetches: seq<seq<Message>>): seq<Message> {
    if fetches == [] then [] else fetches[0] + Joined(fetches[1..])
  }

  /** Such a client is sent every newer message exactly once, in order, in one fetch more than the full ones. */
  lemma {:induction false} ForwardWalkReturnsEachOnce(table: seq<Message>, offset: nat, directChatId: Option<nat>,
                                                      groupChatId: Option<nat>, limit: nat, fetches: seq<seq<Message>>)
    requires Ascending(table) && limit >= 1
    requires IsForwardWalk(table, offset, directChatId, groupChatId, limit, fetches)
    ensures Joined(fetches) == Newer(table, offset, directChatId, groupChatId)
    ensures (|fetches| - 1) * limit <= |Joined(fetches)| < |fetches| * limit
    decreases |fetches|
  {
    var all := Newer(table, offset, directChatId, groupChatId);
    if |fetches[0]| == limit {
      ResumeAbove(table, offset, directChatId, groupChatId, limit - 1);
      ForwardWalkReturnsEachOnce(table, fetches[0][limit - 1].id, directChatId, groupChatId, limit, fetches[1..]);
      assert all == all[..limit] + all[limit..];
      var k := |fetches| - 1;
      assert k * limit == (k - 1) * limit + limit && (k + 1) * limit == k * limit + limit;
    } else {
      assert fetches[1..] == [] && all[..|all|] == all;
    }
  }

  lemma {:induction false} ForwardWalkExists(table: seq<Message>, offset: nat, directChatId: Option<nat>,
                                             groupChatId: Option<nat>, limit: nat)
    returns (fetches: seq<seq<Message>>)
    requires Ascending(table) && limit >= 1
    ensures IsForwardWalk(table, offset, directChatId, groupChatId, limit, fetches)
    decreases |Newer(table, offset, directChatId, groupChatId)|
  {
    var page := GetNewerDirectMessages(table, offset, directChatId, groupChatId, limit);
    if |page| == limit {
      ResumeAbove(table, offset, directChatId, groupChatId, limit - 1);
      var rest := ForwardWalkExists(table, page[limit - 1].id, directChatId, groupChatId, limit);
      fetches := [page] + rest;
      assert fetches[1..] == rest;
    } else {
      fetches := [page];
    }
  }
}
