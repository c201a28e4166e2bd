/**
  Friend requests and friends: two tables kept in step by send, accept, reject and remove. Rows are
  listed in the order they were created.

  First calls handled one at a time; then sends that overlap, cut between the look-up of a request
  and the write that follows it.
 */
module Friends {
  import opened Common

  type UserId = nat

  datatype Status = PENDING | ACCEPTED | REJECTED

  datatype Request = Request(id: nat, sender: UserId, recipient: UserId, status: Status)

  datatype Friend = Friend(sender: UserId, recipient: UserId)

  datatype Tables = Tables(requests: seq<Request>, friends: seq<Friend>, nextId: nat)

  datatype SendError = SendToMyself | Blocked | SentBefore

  // ---------- Look-ups ----------

  predicate SamePair(a: UserId, b: UserId, c: UserId, d: UserId) {
    (a == c && b == d) || (a == d && b == c)
  }

  /** findSentFriendRequest: both columns filtered by membership in the two users. */
  predicate InFilter(r: Request, a: UserId, b: UserId) {
    r.sender in [a, b] && r.recipient in [a, b]
  }

  /** findByIds: the pair in either direction. */
  predicate TwoWay(r: Request, a: UserId, b: UserId) {
    SamePair(r.sender, r.recipient, a, b)
  }

  function FindSent(rows: seq<Request>, a: UserId, b: UserId): Option<Request> {
    if rows == [] then None
    else if InFilter(rows[0], a, b) then Some(rows[0])
    else FindSent(rows[1..], a, b)
  }

  function FindByIds(rows: seq<Request>, a: UserId, b: UserId): Option<Request> {
    if rows == [] then None
    else if TwoWay(rows[0], a, b) then Some(rows[0])
    else FindByIds(rows[1..], a, b)
  }

  predicate IsFriend(t: Tables, a: UserId, b: UserId) { FindByIds(t.requests, a, b).Some? }

  predicate AreFriends(t: Tables, a: UserId, b: UserId) {
    exists f <- t.friends :: SamePair(f.sender, f.recipient, a, b)
  }

  lemma {:induction false} FindByIdsIsExact(rows: seq<Request>, a: UserId, b: UserId)
    ensures FindByIds(rows, a, b).Some? <==> exists r <- rows :: TwoWay(r, a, b)
    ensures FindByIds(rows, a, b).Some? ==>
        FindByIds(rows, a, b).value in rows && TwoWay(FindByIds(rows, a, b).value, a, b)
  {
    if rows != [] {
      FindByIdsIsExact(rows[1..], a, b);
      assert forall r :: r in rows <==> r == rows[0] || r in rows[1..];
    }
  }

  lemma {:induction false} FindByIdsIsSymmetric(rows: seq<Request>, a: UserId, b: UserId)
    ensures FindByIds(rows, a, b) == FindByIds(rows, b, a)
  {
    if rows != [] { FindByIdsIsSymmetric(rows[1..], a, b); }
  }

  predicate NoSelfRow(rows: seq<Request>) { forall r <- rows :: r.sender != r.recipient }

  lemma {:induction false} LookupsAgree(rows: seq<Request>, a: UserId, b: UserId)
    requires NoSelfRow(rows)
    ensures FindSent(rows, a, b) == FindByIds(rows, a, b)
  {
    if rows != [] {
      assert rows[0] in rows;
      LookupsAgree(rows[1..], a, b);
    }
  }

  function Fresh(rows: seq<Request>): (u: UserId)
    ensures forall r <- rows :: r.sender < u && r.recipient < u
  {
    if rows == [] then 0
    else
      var u := Fresh(rows[1..]);
      var v := if rows[0].sender >= u then rows[0].sender + 1 else u;
      if rows[0].recipient >= v then rows[0].recipient + 1 else v
  }

  lemma {:induction false} SelfRowIsFound(rows: seq<Request>, r: Request, a: UserId, b: UserId)
    requires r in rows && InFilter(r, a, b)
    ensures FindSent(rows, a, b).Some?
  {
    if rows[0] != r { SelfRowIsFound(rows[1..], r, a, b); }
  }

  /**
    The membership filter finds what the two-direction filter finds, for all users, exactly when no row
    joins a user to itself.
   */
  lemma LookupsAgreeExactlyWithoutSelfRows(rows: seq<Request>)
    ensures (forall a, b :: FindSent(rows, a, b) == FindByIds(rows, a, b)) <==> NoSelfRow(rows)
  {
    if NoSelfRow(rows) {
      forall a, b ensures FindSent(rows, a, b) == FindByIds(rows, a, b) { LookupsAgree(rows, a, b); }
    } else {
      var r :| r in rows && r.sender == r.recipient;
      SelfRowIsFound(rows, r, r.sender, Fresh(rows));
      FindByIdsIsExact(rows, r.sender, Fresh(rows));
    }
  }

  // ---------- Operations ----------

  datatype Op =
    | Send(sender: UserId, recipient: UserId, blocked: bool)
    | Accept(id: nat)
    | Reject(id: nat)
    | RemoveFriend(user: UserId, friend: UserId)

  /** Rewrites the row with this id. */
  function Update(rows: seq<Request>, row: Request): (r: seq<Request>)
    ensures |r| == |rows| && forall i | 0 <= i < |rows| :: r[i] == if rows[i].id == row.id then row else rows[i]
  {
    if rows == [] then []
    else [if rows[0].id == row.id then row else rows[0]] + Update(rows[1..], row)
  }

  function Row(rows: seq<Request>, id: nat): Option<Request> {
    if rows == [] then None
    else if rows[0].id == id then Some(rows[0])
    else Row(rows[1..], id)
  }

  function RequestsWithout(rows: seq<Request>, a: UserId, b: UserId): seq<Request> {
    if rows == [] then []
    else if TwoWay(rows[0], a, b) then RequestsWithout(rows[1..], a, b)
    else [rows[0]] + RequestsWithout(rows[1..], a, b)
  }

  function FriendsWithout(rows: seq<Friend>, a: UserId, b: UserId): seq<Friend> {
    if rows == [] then []
    else if SamePair(rows[0].sender, rows[0].recipient, a, b) then FriendsWithout(rows[1..], a, b)
    else [rows[0]] + FriendsWithout(rows[1..], a, b)
  }

  function SendOutcome(t: Tables, sender: UserId, recipient: UserId, blocked: bool): Result<Request, SendError> {
    if sender == recipient then Err(SendToMyself)
    else if blocked then Err(Blocked)
    else match FindSent(t.requests, sender, recipient)
      case None => Ok(Request(t.nextId, sender, recipient, PENDING))
      case Some(r) => if r.status.REJECTED? then Ok(Request(r.id, sender, recipient, PENDING)) else Err(SentBefore)
  }

  function Apply(t: Tables, op: Op): Tables {
    match op
    case Send(sender, recipient, blocked) =>
      (match SendOutcome(t, sender, recipient, blocked)
       case Err(_) => t
       case Ok(row) =>
         if FindSent(t.requests, sender, recipient).None?
             then t.(requests := t.requests + [row], nextId := t.nextId + 1)
         else t.(requests := Update(t.requests, row)))
    case Accept(id) =>
      (match Row(t.requests, id)
       case None => t
       case Some(r) =>
         t.(requests := Update(t.requests, r.(status := ACCEPTED)),
           friends := t.friends + [Friend(r.sender, r.recipient)]))
    case Reject(id) =>
      (match Row(t.requests, id)
       case None => t
       case Some(r) => t.(requests := Update(t.requests, r.(status := REJECTED))))
    case RemoveFriend(a, b) =>
      t.(requests := RequestsWithout(t.requests, a, b), friends := FriendsWithout(t.friends, a, b))
  }

  function Run(t: Tables, ops: seq<Op>): Tables
    decreases |ops|
  {
    if ops == [] then t else Run(Apply(t, ops[0]), ops[1..])
  }

  // ---------- Invariants of every run ----------

  /** Two rows that must not both exist. */
  predicate Clash(x: Request, y: Request) { x.id == y.id || TwoWay(x, y.sender, y.recipient) }

  /** One row for each unordered pair, and for each id. */
  predicate Apart(rows: seq<Request>) {
    forall i, j | 0 <= i < j < |rows| :: !Clash(rows[i], rows[j])
  }

  predicate IdsBelow(rows: seq<Request>, nextId: nat) { forall r <- rows :: r.id < nextId }

  predicate HasRow(rows: seq<Request>, a: UserId, b: UserId) { exists r <- rows :: TwoWay(r, a, b) }

  ghost predicate FriendsHaveRows(rows: seq<Request>, friends: seq<Friend>) {
    forall f <- friends :: HasRow(rows, f.sender, f.recipient)
  }

  ghost predicate AcceptedAreFriends(rows: seq<Request>, friends: seq<Friend>) {
    forall r <- rows | r.status.ACCEPTED? :: exists f <- friends ::
        SamePair(f.sender, f.recipient, r.sender, r.recipient)
  }

  ghost predicate Inv(t: Tables) {
    && NoSelfRow(t.requests) && Apart(t.requests) && IdsBelow(t.requests, t.nextId)
    && FriendsHaveRows(t.requests, t.friends) && AcceptedAreFriends(t.requests, t.friends)
  }

  lemma {:induction false} RowIsExact(rows: seq<Request>, id: nat)
    ensures match Row(rows, id)
            case Some(r) => r in rows && r.id == id
            case None => forall r <- rows :: r.id != id
  {
    if rows != [] { RowIsExact(rows[1..], id); }
  }

  lemma {:induction false} RequestsWithoutIsExact(rows: seq<Request>, a: UserId, b: UserId)
    ensures forall x :: x in RequestsWithout(rows, a, b) <==> x in rows && !TwoWay(x, a, b)
  {
    if rows != [] {
      RequestsWithoutIsExact(rows[1..], a, b);
      assert forall x :: x in rows <==> x == rows[0] || x in rows[1..];
    }
  }

  lemma {:induction false} RequestsWithoutApart(rows: seq<Request>, a: UserId, b: UserId)
    requires Apart(rows)
    ensures Apart(RequestsWithout(rows, a, b))
  {
    if rows != [] {
      var rest := RequestsWithout(rows[1..], a, b);
      RequestsWithoutApart(rows[1..], a, b);
      RequestsWithoutIsExact(rows[1..], a, b);
      forall j | 0 <= j < |rest| ensures !Clash(rows[0], rest[j]) {
        assert rest[j] in rows[1..];
      }
    }
  }

  lemma {:induction false} FriendsWithoutIsExact(rows: seq<Friend>, a: UserId, b: UserId)
    ensures forall f :: f in FriendsWithout(rows, a, b) <==> f in rows && !SamePair(f.sender, f.recipient, a, b)
  {
    if rows != [] {
      FriendsWithoutIsExact(rows[1..], a, b);
      assert forall f :: f in rows <==> f == rows[0] || f in rows[1..];
    }
  }

  lemma UpdateAt(rows: seq<Request>, row: Request, k: nat)
    requires Apart(rows) && k < |rows| && rows[k].id == row.id
    ensures Update(rows, row) == rows[k := row]
  {
    forall i | 0 <= i < |rows| ensures Update(rows, row)[i] == rows[k := row][i] {
      assert i < k ==> !Clash(rows[i], rows[k]);
      assert k < i ==> !Clash(rows[k], rows[i]);
    }
  }

  /** Rewriting a row with one of the same pair keeps the rows apart. */
  lemma UpdateApart(rows: seq<Request>, before: Request, row: Request)
    requires Apart(rows) && before in rows && row.id == before.id && TwoWay(row, before.sender, before.recipient)
    ensures Apart(Update(rows, row))
  {
    var k :| 0 <= k < |rows| && rows[k] == before;
    var r := rows[k := row];
    UpdateAt(rows, row, k);
    forall i, j | 0 <= i < j < |r| ensures !Clash(r[i], r[j]) {
      assert !Clash(rows[i], rows[j]);
    }
  }

  /** ... and the pairs findable. */
  lemma UpdateKeepsPairs(rows: seq<Request>, before: Request, row: Request)
    requires Apart(rows) && before in rows && row.id == before.id && TwoWay(row, before.sender, before.recipient)
    ensures forall a, b :: HasRow(rows, a, b) ==> HasRow(Update(rows, row), a, b)
    ensures forall x <- Update(rows, row) :: x == row || x in rows
  {
    var r := Update(rows, row);
    var k :| 0 <= k < |rows| && rows[k] == before;
    forall a, b | HasRow(rows, a, b) ensures HasRow(r, a, b) {
      var x :| x in rows && TwoWay(x, a, b);
      var i :| 0 <= i < |rows| && rows[i] == x;
      assert i < k ==> !Clash(rows[i], rows[k]);
      assert k < i ==> !Clash(rows[k], rows[i]);
      assert r[i] in r && TwoWay(r[i], a, b);
    }
  }

  lemma ReopenKeepsInv(t: Tables, before: Request, row: Request)
    requires Inv(t) && before in t.requests && row.id == before.id && row.status.PENDING?
    requires TwoWay(row, before.sender, before.recipient)
    ensures Inv(t.(requests := Update(t.requests, row)))
  {
    UpdateApart(t.requests, before, row);
    UpdateKeepsPairs(t.requests, before, row);
  }

  lemma SendKeepsInv(t: Tables, sender: UserId, recipient: UserId, blocked: bool)
    requires Inv(t)
    ensures Inv(Apply(t, Send(sender, recipient, blocked)))
  {
    if SendOutcome(t, sender, recipient, blocked).Ok? {
      var row := SendOutcome(t, sender, recipient, blocked).value;
      LookupsAgree(t.requests, sender, recipient);
      FindByIdsIsExact(t.requests, sender, recipient);
      if FindSent(t.requests, sender, recipient).Some? {
        ReopenKeepsInv(t, FindSent(t.requests, sender, recipient).value, row);
      }
    }
  }

  lemma SetStatusKeepsInv(t: Tables, id: nat, accept: bool)
    requires Inv(t)
    ensures Inv(Apply(t, if accept then Accept(id) else Reject(id)))
  {
    RowIsExact(t.requests, id);
    if Row(t.requests, id).Some? {
      var r := Row(t.requests, id).value;
      var row := r.(status := if accept then ACCEPTED else REJECTED);
      UpdateApart(t.requests, r, row);
      UpdateKeepsPairs(t.requests, r, row);
      var rows' := Update(t.requests, row);
      var friends' := if accept then t.friends + [Friend(r.sender, r.recipient)] else t.friends;
      assert HasRow(t.requests, r.sender, r.recipient);
      forall x <- rows' | x.status.ACCEPTED?
        ensures exists f <- friends' :: SamePair(f.sender, f.recipient, x.sender, x.recipient)
      {
        if x == row {
          assert Friend(r.sender, r.recipient) in friends';
        } else {
          var f :| f in t.friends && SamePair(f.sender, f.recipient, x.sender, x.recipient);
          assert f in friends';
        }
      }
    }
  }

  lemma RemoveKeepsInv(t: Tables, a: UserId, b: UserId)
    requires Inv(t)
    ensures Inv(Apply(t, RemoveFriend(a, b)))
  {
    var t' := Apply(t, RemoveFriend(a, b));
    RequestsWithoutIsExact(t.requests, a, b);
    RequestsWithoutApart(t.requests, a, b);
    FriendsWithoutIsExact(t.friends, a, b);
    forall f <- t'.friends ensures HasRow(t'.requests, f.sender, f.recipient) {
      var r :| r in t.requests && TwoWay(r, f.sender, f.recipient);
      assert r in t'.requests;
    }
    forall r <- t'.requests | r.status.ACCEPTED?
      ensures exists f <- t'.friends :: SamePair(f.sender, f.recipient, r.sender, r.recipient)
    {
      var f :| f in t.friends && SamePair(f.sender, f.recipient, r.sender, r.recipient);
      assert f in t'.friends;
    }
  }

  lemma ApplyKeepsInv(t: Tables, op: Op)
    requires Inv(t)
    ensures Inv(Apply(t, op))
  {
    match op
    case Send(s, r, blocked) => SendKeepsInv(t, s, r, blocked);
    case Accept(id) => SetStatusKeepsInv(t, id, true);
    case Reject(id) => SetStatusKeepsInv(t, id, false);
    case RemoveFriend(a, b) => RemoveKeepsInv(t, a, b);
  }

  lemma {:induction false} RunKeepsInv(t: Tables, ops: seq<Op>)
    requires Inv(t)
    ensures Inv(Run(t, ops))
    decreases |ops|
  {
    if ops != [] {
      ApplyKeepsInv(t, ops[0]);
      RunKeepsInv(Apply(t, ops[0]), ops[1..]);
    }
  }

  // ---------- Main results ----------

  const EMPTY := Tables([], [], 0)

  /** After every run: one row per pair, none to oneself, and the friend check covers every friend. */
  lemma EveryRun(ops: seq<Op>, a: UserId, b: UserId)
    ensures var t := Run(EMPTY, ops);
            && NoSelfRow(t.requests) && Apart(t.requests)
            && FindSent(t.requests, a, b) == FindByIds(t.requests, a, b)
            && IsFriend(t, a, b) == IsFriend(t, b, a)
            && (AreFriends(t, a, b) ==> IsFriend(t, a, b))
            && !IsFriend(t, a, a)
            && (forall r <- t.requests | r.status.ACCEPTED? :: AreFriends(t, r.sender, r.recipient))
  {
    RunKeepsInv(EMPTY, ops);
    var t := Run(EMPTY, ops);
    LookupsAgree(t.requests, a, b);
    FindByIdsIsExact(t.requests, a, b);
    FindByIdsIsExact(t.requests, a, a);
    FindByIdsIsSymmetric(t.requests, a, b);
    if AreFriends(t, a, b) {
      var f :| f in t.friends && SamePair(f.sender, f.recipient, a, b);
      assert HasRow(t.requests, f.sender, f.recipient);
    }
  }

  /** The pair has no request, or one that was rejected. */
  predicate MayBeSent(rows: seq<Request>, a: UserId, b: UserId) {
    forall r <- rows | TwoWay(r, a, b) :: r.status == REJECTED
  }

  /** The rows of the pair are replaced by this one, and nothing else is touched. */
  ghost predicate PairBecomes(rows: seq<Request>, rows': seq<Request>, row: Request) {
    forall r :: r in rows' <==> r == row || (r in rows && !TwoWay(r, row.sender, row.recipient))
  }

  lemma FoundIsOnly(rows: seq<Request>, a: UserId, b: UserId)
    requires NoSelfRow(rows) && Apart(rows)
    ensures FindSent(rows, a, b).None? <==> forall r <- rows :: !TwoWay(r, a, b)
    ensures FindSent(rows, a, b).Some? ==>
              FindSent(rows, a, b).value in rows && forall r <- rows ::
                TwoWay(r, a, b) <==> r == FindSent(rows, a, b).value
  {
    LookupsAgree(rows, a, b);
    FindByIdsIsExact(rows, a, b);
    if FindSent(rows, a, b).Some? {
      forall r <- rows | TwoWay(r, a, b) ensures r == FindSent(rows, a, b).value {
        if r != FindSent(rows, a, b).value { OnlyOneClashes(rows, r, FindSent(rows, a, b).value); }
      }
    }
  }

  lemma OnlyOneClashes(rows: seq<Request>, x: Request, y: Request)
    requires Apart(rows) && x in rows && y in rows && x != y
    ensures x.id != y.id && !TwoWay(x, y.sender, y.recipient)
  {
    var i :| 0 <= i < |rows| && rows[i] == x;
    var j :| 0 <= j < |rows| && rows[j] == y;
    assert i < j ==> !Clash(rows[i], rows[j]);
    assert j < i ==> !Clash(rows[j], rows[i]);
  }

  lemma UpdateReplaces(rows: seq<Request>, before: Request, row: Request)
    requires Apart(rows) && before in rows && row.id == before.id && TwoWay(before, row.sender, row.recipient)
    ensures PairBecomes(rows, Update(rows, row), row)
  {
    var rows' := Update(rows, row);
    forall r ensures r in rows' <==> r == row || (r in rows && !TwoWay(r, row.sender, row.recipient)) {
      if r in rows' {
        var i :| 0 <= i < |rows'| && rows'[i] == r;
        assert rows[i] in rows;
        if rows[i] != before { OnlyOneClashes(rows, rows[i], before); }
      }
      if r == row {
        var k :| 0 <= k < |rows| && rows[k] == before;
        assert rows'[k] == row;
      } else if r in rows && !TwoWay(r, row.sender, row.recipient) {
        var k :| 0 <= k < |rows| && rows[k] == r;
        OnlyOneClashes(rows, r, before);
        assert rows'[k] == r;
      }
    }
  }

  /**
    After every run a request takes effect exactly if it is to another user, is not blocked, and the
    pair has no request or a rejected one. The pair's one row is then pending in the direction of the
    sender, with its old id if it had one and an unused id otherwise; no other row and no friend
    changes. If it does not take effect nothing changes.
   */
  lemma SendExactly(ops: seq<Op>, a: UserId, b: UserId, blocked: bool)
    ensures var t := Run(EMPTY, ops);
            var t' := Apply(t, Send(a, b, blocked));
            if a != b && !blocked && MayBeSent(t.requests, a, b) then
              && t'.friends == t.friends
              && exists id ::
                   && PairBecomes(t.requests, t'.requests, Request(id, a, b, PENDING))
                   && forall r <- t.requests :: r.id == id <==> TwoWay(r, a, b)
            else t' == t
  {
    RunKeepsInv(EMPTY, ops);
    SendOn(Run(EMPTY, ops), a, b, blocked);
  }

  lemma SendOn(t: Tables, a: UserId, b: UserId, blocked: bool)
    requires Inv(t)
    ensures var t' := Apply(t, Send(a, b, blocked));
            if a != b && !blocked && MayBeSent(t.requests, a, b) then
              && t'.friends == t.friends
              && exists id ::
                   && PairBecomes(t.requests, t'.requests, Request(id, a, b, PENDING))
                   && forall r <- t.requests :: r.id == id <==> TwoWay(r, a, b)
            else t' == t
  {
    FoundIsOnly(t.requests, a, b);
    var found := FindSent(t.requests, a, b);
    if a != b && !blocked && MayBeSent(t.requests, a, b) {
      var id := if found.Some? then found.value.id else t.nextId;
      var row := Request(id, a, b, PENDING);
      if found.Some? {
        UpdateReplaces(t.requests, found.value, row);
        forall r <- t.requests ensures r.id == id <==> TwoWay(r, a, b) {
          if r != found.value { OnlyOneClashes(t.requests, r, found.value); }
        }
      }
      assert PairBecomes(t.requests, Apply(t, Send(a, b, blocked)).requests, row);
    }
  }

  /** What the sender is told: the row, or the first of the reasons that applies. */
  lemma SendTold(ops: seq<Op>, a: UserId, b: UserId, blocked: bool)
    ensures var t := Run(EMPTY, ops);
            var t' := Apply(t, Send(a, b, blocked));
            match SendOutcome(t, a, b, blocked)
            case Ok(row) => row.sender == a && row.recipient == b && row.status == PENDING && row in t'.requests
            case Err(SendToMyself) => a == b
            case Err(Blocked) => a != b && blocked
            case Err(SentBefore) => a != b && !blocked && !MayBeSent(t.requests, a, b)
  {
    RunKeepsInv(EMPTY, ops);
    var t := Run(EMPTY, ops);
    FoundIsOnly(t.requests, a, b);
    if SendOutcome(t, a, b, blocked).Ok? && FindSent(t.requests, a, b).Some? {
      UpdateReplaces(t.requests, FindSent(t.requests, a, b).value, SendOutcome(t, a, b, blocked).value);
    }
  }

  /**
    After every run an answer to a request sets the status of the row with that id and of no other,
    and an acceptance adds one friend row, from the sender to the recipient. Without such a row
    nothing changes.
   */
  lemma ActionExactly(ops: seq<Op>, id: nat, accept: bool)
    ensures var t := Run(EMPTY, ops);
            var t' := Apply(t, if accept then Accept(id) else Reject(id));
            && (forall r <- t.requests | r.id == id ::
                  && PairBecomes(t.requests, t'.requests, r.(status := if accept then ACCEPTED else REJECTED))
                  && t'.friends == t.friends + (if accept then [Friend(r.sender, r.recipient)] else []))
            && ((forall r <- t.requests :: r.id != id) ==> t' == t)
  {
    RunKeepsInv(EMPTY, ops);
    var t := Run(EMPTY, ops);
    RowIsExact(t.requests, id);
    if Row(t.requests, id).Some? {
      var r := Row(t.requests, id).value;
      UpdateReplaces(t.requests, r, r.(status := if accept then ACCEPTED else REJECTED));
      forall x <- t.requests | x.id == id ensures x == r {
        if x != r { OnlyOneClashes(t.requests, x, r); }
      }
    }
  }

  /** Removing a friend is complete, in both tables, and touches no other pair. */
  lemma RemoveIsComplete(t: Tables, a: UserId, b: UserId, c: UserId, d: UserId)
    ensures var t' := Apply(t, RemoveFriend(a, b));
            && (IsFriend(t', c, d) <==> IsFriend(t, c, d) && !SamePair(a, b, c, d))
            && (AreFriends(t', c, d) <==> AreFriends(t, c, d) && !SamePair(a, b, c, d))
  {
    var t' := Apply(t, RemoveFriend(a, b));
    RequestsWithoutIsExact(t.requests, a, b);
    FriendsWithoutIsExact(t.friends, a, b);
    FindByIdsIsExact(t.requests, c, d);
    FindByIdsIsExact(t'.requests, c, d);
    if IsFriend(t, c, d) && !SamePair(a, b, c, d) {
      var r :| r in t.requests && TwoWay(r, c, d);
      assert r in t'.requests;
    }
    if AreFriends(t, c, d) && !SamePair(a, b, c, d) {
      var f :| f in t.friends && SamePair(f.sender, f.recipient, c, d);
      assert f in t'.friends;
    }
  }

  /** The ids of the requests that were accepted in a run, whatever became of them. */
  function AcceptedIn(t: Tables, ops: seq<Op>): set<nat>
    decreases |ops|
  {
    if ops == [] then {} else AcceptedBy(t, ops[0]) + AcceptedIn(Apply(t, ops[0]), ops[1..])
  }

  function AcceptedBy(t: Tables, op: Op): set<nat> {
    if op.Accept? && Row(t.requests, op.id).Some? then {op.id} else {}
  }

  ghost predicate HasFriendRow(friends: seq<Friend>, r: Request) {
    exists f <- friends :: SamePair(f.sender, f.recipient, r.sender, r.recipient)
  }

  /** A pair that has a request has a friend row exactly if that request was accepted. */
  ghost predicate Tracked(t: Tables, accepted: set<nat>) {
    && (forall id <- accepted :: id < t.nextId)
    && (forall r <- t.requests :: HasFriendRow(t.friends, r) <==> r.id in accepted)
  }

  lemma SendTracked(t: Tables, accepted: set<nat>, sender: UserId, recipient: UserId, blocked: bool)
    requires Inv(t) && Tracked(t, accepted)
    ensures Tracked(Apply(t, Send(sender, recipient, blocked)), accepted)
  {
    if SendOutcome(t, sender, recipient, blocked).Ok? {
      var row := SendOutcome(t, sender, recipient, blocked).value;
      LookupsAgree(t.requests, sender, recipient);
      FindByIdsIsExact(t.requests, sender, recipient);
      if FindSent(t.requests, sender, recipient).Some? {
        UpdateTracked(t, accepted, FindSent(t.requests, sender, recipient).value, row);
      } else {
        assert forall f <- t.friends :: HasRow(t.requests, f.sender, f.recipient);
      }
    }
  }

  /** Rewriting a row with one of the same id and pair. */
  lemma UpdateTracked(t: Tables, accepted: set<nat>, before: Request, row: Request)
    requires Inv(t) && Tracked(t, accepted) && before in t.requests
    requires row.id == before.id && TwoWay(row, before.sender, before.recipient)
    ensures Tracked(t.(requests := Update(t.requests, row)), accepted)
  {
    UpdateKeepsPairs(t.requests, before, row);
    assert HasFriendRow(t.friends, before) <==> HasFriendRow(t.friends, row);
  }

  lemma AcceptTracked(t: Tables, accepted: set<nat>, id: nat)
    requires Inv(t) && Tracked(t, accepted)
    ensures Tracked(Apply(t, Accept(id)), accepted + AcceptedBy(t, Accept(id)))
  {
    RowIsExact(t.requests, id);
    if Row(t.requests, id).Some? {
      var r := Row(t.requests, id).value;
      var friend := Friend(r.sender, r.recipient);
      UpdateTracked(t, accepted, r, r.(status := ACCEPTED));
      var t1 := t.(requests := Update(t.requests, r.(status := ACCEPTED)));
      UpdateApart(t.requests, r, r.(status := ACCEPTED));
      BefriendTracked(t1, accepted, r.(status := ACCEPTED));
    }
  }

  /** A friend row for the pair of one request. */
  lemma BefriendTracked(t: Tables, accepted: set<nat>, r: Request)
    requires Apart(t.requests) && IdsBelow(t.requests, t.nextId) && Tracked(t, accepted) && r in t.requests
    ensures Tracked(t.(friends := t.friends + [Friend(r.sender, r.recipient)]), accepted + {r.id})
  {
    var friends' := t.friends + [Friend(r.sender, r.recipient)];
    forall x <- t.requests ensures HasFriendRow(friends', x) <==> x.id in accepted + {r.id} {
      if HasFriendRow(t.friends, x) {
        var f :| f in t.friends && SamePair(f.sender, f.recipient, x.sender, x.recipient);
        assert f in friends';
      }
      if x == r {
        assert Friend(r.sender, r.recipient) in friends';
      }
    }
  }

  lemma RemoveTracked(t: Tables, accepted: set<nat>, a: UserId, b: UserId)
    requires Tracked(t, accepted)
    ensures Tracked(Apply(t, RemoveFriend(a, b)), accepted)
  {
    var t' := Apply(t, RemoveFriend(a, b));
    RequestsWithoutIsExact(t.requests, a, b);
    FriendsWithoutIsExact(t.friends, a, b);
    forall r <- t'.requests ensures HasFriendRow(t'.friends, r) <==> HasFriendRow(t.friends, r) {
      if f :| f in t.friends && SamePair(f.sender, f.recipient, r.sender, r.recipient) {
        assert f in t'.friends;
      }
    }
  }

  lemma ApplyTracked(t: Tables, accepted: set<nat>, op: Op)
    requires Inv(t) && Tracked(t, accepted)
    ensures Tracked(Apply(t, op), accepted + AcceptedBy(t, op))
  {
    assert !op.Accept? ==> accepted + AcceptedBy(t, op) == accepted;
    match op
    case Send(s, r, blocked) => SendTracked(t, accepted, s, r, blocked);
    case Accept(id) => AcceptTracked(t, accepted, id);
    case Reject(id) =>
      RowIsExact(t.requests, id);
      if Row(t.requests, id).Some? {
        var r := Row(t.requests, id).value;
        UpdateTracked(t, accepted, r, r.(status := REJECTED));
      }
    case RemoveFriend(a, b) => RemoveTracked(t, accepted, a, b);
  }

  lemma {:induction false} RunTracked(t: Tables, accepted: set<nat>, ops: seq<Op>)
    requires Inv(t) && Tracked(t, accepted)
    ensures Tracked(Run(t, ops), accepted + AcceptedIn(t, ops))
    decreases |ops|
  {
    if ops == [] {
      assert accepted + {} == accepted;
    } else {
      ApplyKeepsInv(t, ops[0]);
      ApplyTracked(t, accepted, ops[0]);
      RunTracked(Apply(t, ops[0]), accepted + AcceptedBy(t, ops[0]), ops[1..]);
      assert accepted + AcceptedBy(t, ops[0]) + AcceptedIn(Apply(t, ops[0]), ops[1..]) == accepted + AcceptedIn(t, ops);
    }
  }

  /**
    The friend check looks at the request table and ignores the status. After every run it is wrong
    for a pair exactly when the pair has a request that was never accepted. (The status itself does
    not decide it: a request that is accepted and then rejected leaves its friend row.)
   */
  lemma FriendCheckErrsExactly(ops: seq<Op>, a: UserId, b: UserId)
    ensures var t := Run(EMPTY, ops);
            IsFriend(t, a, b) != AreFriends(t, a, b) <==>
              FindByIds(t.requests, a, b).Some? && FindByIds(t.requests, a, b).value.id !in AcceptedIn(EMPTY, ops)
  {
    EveryRun(ops, a, b);
    RunTracked(EMPTY, {}, ops);
    var t := Run(EMPTY, ops);
    assert {} + AcceptedIn(EMPTY, ops) == AcceptedIn(EMPTY, ops);
    FindByIdsIsExact(t.requests, a, b);
    if FindByIds(t.requests, a, b).Some? {
      var r := FindByIds(t.requests, a, b).value;
      assert AreFriends(t, a, b) <==> HasFriendRow(t.friends, r);
    }
  }

  /** A request that was merely sent already passes the friend check. */
  lemma SentPassesFriendCheck(a: UserId, b: UserId)
    requires a != b
    ensures var t := Run(EMPTY, [Send(a, b, false)]);
            IsFriend(t, a, b) && !AreFriends(t, a, b)
  {
    var ops := [Send(a, b, false)];
    assert ops[1..] == [] && Run(Apply(EMPTY, ops[0]), ops[1..]) == Apply(EMPTY, ops[0]);
    var t := Apply(EMPTY, ops[0]);
    assert t.requests == [Request(0, a, b, PENDING)];
  }

  /** A rejection after the acceptance leaves the friend row. */
  lemma RejectionLeavesFriend(a: UserId, b: UserId)
    requires a != b
    ensures var t := Run(EMPTY, [Send(a, b, false), Accept(0), Reject(0)]);
            t.requests == [Request(0, a, b, REJECTED)] && AreFriends(t, a, b)
  {
    var t1 := Apply(EMPTY, Send(a, b, false));
    var t2 := Apply(t1, Accept(0));
    var t3 := Apply(t2, Reject(0));
    assert t1.requests == [Request(0, a, b, PENDING)];
    assert t2.requests == [Request(0, a, b, ACCEPTED)] && t2.friends == [Friend(a, b)];
    assert t3.requests == [Request(0, a, b, REJECTED)] && Friend(a, b) in t3.friends;
    var ops := [Send(a, b, false), Accept(0), Reject(0)];
    assert ops[1..] == [Accept(0), Reject(0)] && ops[1..][1..] == [Reject(0)] && ops[1..][1..][1..] == [];
    assert Run(t3, ops[1..][1..][1..]) == t3;
    assert Run(t2, ops[1..][1..]) == t3;
    assert Run(t1, ops[1..]) == t3;
  }

  // ---------- Sends that overlap ----------

  /** What a suspended send found and will write. */
  datatype Pending =
    | Creating(sender: UserId, recipient: UserId)
    | Reopening(id: nat, sender: UserId, recipient: UserId)

  type Sends = map<nat, Pending>

  datatype System = System(t: Tables, sends: Sends, next: nat)

  datatype Event = BeginSend(sender: UserId, recipient: UserId, blocked: bool) | Resume(send: nat) | Whole(op: Op)

  function Looked(t: Tables, sender: UserId, recipient: UserId, blocked: bool): Option<Pending> {
    match SendOutcome(t, sender, recipient, blocked)
    case Err(_) => None
    case Ok(row) =>
      if FindSent(t.requests, sender, recipient).None? then Some(Creating(sender, recipient))
      else Some(Reopening(row.id, sender, recipient))
  }

  /** The tables take what they are given: no index keeps a pair from having two rows. */
  function Written(t: Tables, p: Pending): Tables {
    match p
    case Creating(a, b) => t.(requests := t.requests + [Request(t.nextId, a, b, PENDING)], nextId := t.nextId + 1)
    case Reopening(id, a, b) => t.(requests := Update(t.requests, Request(id, a, b, PENDING)))
  }

  function Step(y: System, e: Event): System {
    match e
    case BeginSend(a, b, blocked) =>
      (match Looked(y.t, a, b, blocked)
       case None => y
       case Some(p) => y.(sends := y.sends[y.next := p], next := y.next + 1))
    case Resume(i) => if i in y.sends then y.(t := Written(y.t, y.sends[i]), sends := y.sends - {i}) else y
    case Whole(op) => if op.Send? then y else y.(t := Apply(y.t, op))
  }

  function Play(y: System, es: seq<Event>): System
    decreases |es|
  {
    if es == [] then y else Play(Step(y, es[0]), es[1..])
  }

  const START := System(EMPTY, map[], 0)

  /** A send that nothing overlaps is the whole send. */
  lemma UndisturbedSend(y: System, a: UserId, b: UserId, blocked: bool)
    requires y.next !in y.sends
    ensures Step(Step(y, BeginSend(a, b, blocked)), Resume(y.next)).t == Apply(y.t, Send(a, b, blocked))
  {
  }

  /** The request rows of a pair. */
  function Count(rows: seq<Request>, a: UserId, b: UserId): nat {
    if rows == [] then 0 else (if TwoWay(rows[0], a, b) then 1 else 0) + Count(rows[1..], a, b)
  }

  lemma {:induction false} CountAppend(rows: seq<Request>, r: Request, a: UserId, b: UserId)
    ensures Count(rows + [r], a, b) == Count(rows, a, b) + if TwoWay(r, a, b) then 1 else 0
  {
    if rows == [] {
      assert [r][1..] == [];
    } else {
      assert (rows + [r])[1..] == rows[1..] + [r];
      CountAppend(rows[1..], r, a, b);
    }
  }

  lemma {:induction false} CountUpdate(rows: seq<Request>, row: Request, a: UserId, b: UserId)
    requires forall r <- rows :: r.id == row.id ==> TwoWay(r, row.sender, row.recipient)
    ensures Count(Update(rows, row), a, b) == Count(rows, a, b)
  {
    if rows != [] {
      assert rows[0] in rows;
      CountUpdate(rows[1..], row, a, b);
      assert Update(rows, row)[1..] == Update(rows[1..], row);
    }
  }

  lemma {:induction false} CountWithout(rows: seq<Request>, c: UserId, d: UserId, a: UserId, b: UserId)
    ensures Count(RequestsWithout(rows, c, d), a, b) == if SamePair(c, d, a, b) then 0 else Count(rows, a, b)
  {
    if rows != [] {
      CountWithout(rows[1..], c, d, a, b);
      var rest := RequestsWithout(rows[1..], c, d);
      assert ([rows[0]] + rest)[1..] == rest;
    }
  }

  lemma {:induction false} CountHas(rows: seq<Request>, a: UserId, b: UserId)
    ensures Count(rows, a, b) > 0 <==> HasRow(rows, a, b)
  {
    if rows != [] {
      CountHas(rows[1..], a, b);
      assert forall r :: r in rows <==> r == rows[0] || r in rows[1..];
    }
  }

  predicate IdsApart(rows: seq<Request>) { forall i, j | 0 <= i < j < |rows| :: rows[i].id != rows[j].id }

  /** A row and a send that will reopen it are about the same pair. */
  predicate About(p: Pending, r: Request) { p.Reopening? && r.id == p.id ==> TwoWay(r, p.sender, p.recipient) }

  predicate PendingOk(p: Pending, rows: seq<Request>, nextId: nat) {
    && p.sender != p.recipient && (p.Reopening? ==> p.id < nextId)
    && forall r <- rows :: About(p, r)
  }

  ghost predicate Sound(y: System) {
    && NoSelfRow(y.t.requests) && IdsApart(y.t.requests) && IdsBelow(y.t.requests, y.t.nextId)
    && forall i <- y.sends :: PendingOk(y.sends[i], y.t.requests, y.t.nextId)
  }

  lemma RewriteAbout(rows: seq<Request>, row: Request, p: Pending, nextId: nat)
    requires PendingOk(p, rows, nextId)
    requires forall r <- rows :: r.id == row.id ==> TwoWay(r, row.sender, row.recipient)
    ensures PendingOk(p, Update(rows, row), nextId)
  {
    var rows' := Update(rows, row);
    forall r <- rows' ensures About(p, r) {
      var k :| 0 <= k < |rows'| && rows'[k] == r;
      assert rows[k] in rows && About(p, rows[k]);
    }
  }

  lemma RewriteRows(rows: seq<Request>, row: Request, nextId: nat)
    requires NoSelfRow(rows) && IdsApart(rows) && IdsBelow(rows, nextId)
    requires row.sender != row.recipient && row.id < nextId
    ensures NoSelfRow(Update(rows, row)) && IdsApart(Update(rows, row)) && IdsBelow(Update(rows, row), nextId)
  {
    var rows' := Update(rows, row);
    forall r <- rows' ensures r == row || r in rows {
      var i :| 0 <= i < |rows'| && rows'[i] == r;
      assert rows[i] in rows;
    }
    forall i | 0 <= i < |rows| ensures rows'[i].id == rows[i].id {}
  }

  /** Rewriting a row with one of its id and pair. */
  lemma RewriteSound(y: System, row: Request)
    requires Sound(y) && row.sender != row.recipient && row.id < y.t.nextId
    requires forall r <- y.t.requests :: r.id == row.id ==> TwoWay(r, row.sender, row.recipient)
    ensures Sound(y.(t := y.t.(requests := Update(y.t.requests, row))))
  {
    RewriteRows(y.t.requests, row, y.t.nextId);
    forall i <- y.sends ensures PendingOk(y.sends[i], Update(y.t.requests, row), y.t.nextId) {
      RewriteAbout(y.t.requests, row, y.sends[i], y.t.nextId);
    }
  }

  lemma CreateSound(y: System, a: UserId, b: UserId)
    requires Sound(y) && a != b
    ensures Sound(y.(t := Written(y.t, Creating(a, b))))
  {
    forall i | 0 <= i < |y.t.requests| ensures y.t.requests[i].id != y.t.nextId
    {
      assert y.t.requests[i] in y.t.requests;
    }
  }

  lemma BeginSound(y: System, a: UserId, b: UserId, blocked: bool)
    requires Sound(y)
    ensures Sound(Step(y, BeginSend(a, b, blocked)))
  {
    LookupsAgree(y.t.requests, a, b);
    FindByIdsIsExact(y.t.requests, a, b);
    if Looked(y.t, a, b, blocked).Some? && Looked(y.t, a, b, blocked).value.Reopening? {
      var found := FindSent(y.t.requests, a, b).value;
      forall r <- y.t.requests ensures About(Reopening(found.id, a, b), r) {
        if r.id == found.id { IdsApartUnique(y.t.requests, r, found); }
      }
    }
  }

  lemma IdsApartUnique(rows: seq<Request>, x: Request, y: Request)
    requires IdsApart(rows) && x in rows && y in rows && x.id == y.id
    ensures x == y
  {
    var i :| 0 <= i < |rows| && rows[i] == x;
    var j :| 0 <= j < |rows| && rows[j] == y;
  }

  lemma WholeSound(y: System, op: Op)
    requires Sound(y)
    ensures Sound(Step(y, Whole(op)))
  {
    match op
    case Send(_, _, _) =>
    case Accept(id) => StatusSound(y, id, ACCEPTED);
    case Reject(id) => StatusSound(y, id, REJECTED);
    case RemoveFriend(a, b) =>
      RequestsWithoutIsExact(y.t.requests, a, b);
      WithoutIdsApart(y.t.requests, a, b);
  }

  lemma StatusSound(y: System, id: nat, status: Status)
    requires Sound(y)
    ensures match Row(y.t.requests, id)
            case None => true
            case Some(r) =>
              && Sound(y.(t := y.t.(requests := Update(y.t.requests, r.(status := status)))))
              && forall x <- y.t.requests :: x.id == r.id ==> TwoWay(x, r.sender, r.recipient)
  {
    RowIsExact(y.t.requests, id);
    if Row(y.t.requests, id).Some? {
      var r := Row(y.t.requests, id).value;
      forall x <- y.t.requests | x.id == r.id ensures x == r { IdsApartUnique(y.t.requests, x, r); }
      RewriteSound(y, r.(status := status));
    }
  }

  lemma {:induction false} WithoutIdsApart(rows: seq<Request>, a: UserId, b: UserId)
    requires IdsApart(rows)
    ensures IdsApart(RequestsWithout(rows, a, b))
  {
    if rows != [] {
      var rest := RequestsWithout(rows[1..], a, b);
      WithoutIdsApart(rows[1..], a, b);
      RequestsWithoutIsExact(rows[1..], a, b);
      forall j | 0 <= j < |rest| ensures rows[0].id != rest[j].id {
        assert rest[j] in rows[1..];
      }
    }
  }

  lemma ResumeSound(y: System, i: nat)
    requires Sound(y) && i in y.sends
    ensures Sound(Step(y, Resume(i)))
  {
    var z := y.(sends := y.sends - {i});
    assert forall j <- z.sends :: PendingOk(y.sends[j], y.t.requests, y.t.nextId);
    assert PendingOk(y.sends[i], y.t.requests, y.t.nextId);
    match y.sends[i]
    case Creating(a, b) => CreateSound(z, a, b);
    case Reopening(id, a, b) =>
      forall r <- y.t.requests | r.id == id ensures TwoWay(r, a, b) { assert About(y.sends[i], r); }
      RewriteSound(z, Request(id, a, b, PENDING));
  }

  lemma StepSound(y: System, e: Event)
    requires Sound(y)
    ensures Sound(Step(y, e))
  {
    match e
    case BeginSend(a, b, blocked) => BeginSound(y, a, b, blocked);
    case Resume(i) => if i in y.sends { ResumeSound(y, i); }
    case Whole(op) => WholeSound(y, op);
  }

  /** The pair gets a row although it has one. */
  predicate Doubles(y: System, e: Event, a: UserId, b: UserId) {
    && e.Resume? && e.send in y.sends && y.sends[e.send].Creating?
    && SamePair(y.sends[e.send].sender, y.sends[e.send].recipient, a, b) && HasRow(y.t.requests, a, b)
  }

  predicate RemovesPair(e: Event, a: UserId, b: UserId) {
    e.Whole? && e.op.RemoveFriend? && SamePair(e.op.user, e.op.friend, a, b)
  }

  /** Since the last removal of the pair (or from the start) a creation has doubled its row. */
  predicate DoubledSince(y: System, es: seq<Event>, a: UserId, b: UserId, before: bool)
    decreases |es|
  {
    if es == [] then before
    else DoubledSince(Step(y, es[0]), es[1..], a, b, !RemovesPair(es[0], a, b) && (before || Doubles(y, es[0], a, b)))
  }

  lemma WrittenCount(y: System, i: nat, a: UserId, b: UserId)
    requires Sound(y) && i in y.sends
    ensures Count(Written(y.t, y.sends[i]).requests, a, b) == Count(y.t.requests, a, b) +
              if y.sends[i].Creating? && SamePair(y.sends[i].sender, y.sends[i].recipient, a, b) then 1 else 0
  {
    match y.sends[i]
    case Creating(c, d) => CountAppend(y.t.requests, Request(y.t.nextId, c, d, PENDING), a, b);
    case Reopening(id, c, d) =>
      forall r <- y.t.requests | r.id == id ensures TwoWay(r, c, d) { assert About(y.sends[i], r); }
      CountUpdate(y.t.requests, Request(id, c, d, PENDING), a, b);
  }

  lemma WholeCount(y: System, op: Op, a: UserId, b: UserId)
    requires Sound(y)
    ensures Count(Step(y, Whole(op)).t.requests, a, b) ==
              if RemovesPair(Whole(op), a, b) then 0 else Count(y.t.requests, a, b)
  {
    match op
    case Send(_, _, _) =>
    case Accept(id) =>
      StatusSound(y, id, ACCEPTED);
      if Row(y.t.requests, id).Some? {
        CountUpdate(y.t.requests, Row(y.t.requests, id).value.(status := ACCEPTED), a, b);
      }
    case Reject(id) =>
      StatusSound(y, id, REJECTED);
      if Row(y.t.requests, id).Some? {
        CountUpdate(y.t.requests, Row(y.t.requests, id).value.(status := REJECTED), a, b);
      }
    case RemoveFriend(c, d) => CountWithout(y.t.requests, c, d, a, b);
  }

  lemma StepCount(y: System, e: Event, a: UserId, b: UserId)
    requires Sound(y)
    ensures Count(Step(y, e).t.requests, a, b) > 1 <==>
              !RemovesPair(e, a, b) && (Count(y.t.requests, a, b) > 1 || Doubles(y, e, a, b))
  {
    CountHas(y.t.requests, a, b);
    match e
    case BeginSend(_, _, _) =>
    case Resume(i) => if i in y.sends { WrittenCount(y, i, a, b); }
    case Whole(op) => WholeCount(y, op, a, b);
  }

  /**
    After every interleaving a pair has more than one request row exactly if, since it was last
    removed, a creation took effect when the pair had a row already.
   */
  lemma {:induction false} SecondRowExactly(y: System, es: seq<Event>, a: UserId, b: UserId)
    requires Sound(y)
    ensures Sound(Play(y, es))
    ensures Count(Play(y, es).t.requests, a, b) > 1 <==> DoubledSince(y, es, a, b, Count(y.t.requests, a, b) > 1)
    decreases |es|
  {
    if es != [] {
      StepSound(y, es[0]);
      StepCount(y, es[0], a, b);
      SecondRowExactly(Step(y, es[0]), es[1..], a, b);
    }
  }

  lemma {:induction false} PlaySnoc(y: System, es: seq<Event>, e: Event)
    ensures Play(y, es + [e]) == Step(Play(y, es), e)
    decreases |es|
  {
    if es == [] {
      assert Play(Step(y, e), []) == Step(y, e);
    } else {
      assert (es + [e])[1..] == es[1..] + [e];
      PlaySnoc(Step(y, es[0]), es[1..], e);
    }
  }

  /** Two users who send each other a request at once get two rows. */
  lemma RequestsCross(a: UserId, b: UserId) returns (es: seq<Event>)
    requires a != b
    ensures Play(START, es).t.requests == [Request(0, a, b, PENDING), Request(1, b, a, PENDING)]
  {
    var e1, e2 := BeginSend(a, b, false), BeginSend(b, a, false);
    PlaySnoc(START, [], e1);
    PlaySnoc(START, [e1], e2);
    PlaySnoc(START, [e1] + [e2], Resume(0));
    PlaySnoc(START, [e1] + [e2] + [Resume(0)], Resume(1));
    es := [e1] + [e2] + [Resume(0)] + [Resume(1)];
  }

  // ---------- Imperative form ----------

  class FriendTables {
    var requests: seq<Request>
    var friends: seq<Friend>
    var nextId: nat

    ghost function Model(): Tables
      reads this
    {
      Tables(requests, friends, nextId)
    }

    constructor ()
      ensures Model() == EMPTY
    {
      requests, friends, nextId := [], [], 0;
    }

    method SendFriendRequest(sender: UserId, recipient: UserId, blocked: bool) returns (r: Result<Request, SendError>)
      modifies this
      ensures Model() == Apply(old(Model()), Send(sender, recipient, blocked))
      ensures r == SendOutcome(old(Model()), sender, recipient, blocked)
    {
      if sender == recipient { return Err(SendToMyself); }
      if blocked { return Err(Blocked); }
      var existing := FindSent(requests, sender, recipient);
      var row;
      if existing.Some? {
        if existing.value.status == PENDING || existing.value.status == ACCEPTED { return Err(SentBefore); }
        row := Request(existing.value.id, sender, recipient, PENDING);
        requests := Update(requests, row);
      } else {
        row := Request(nextId, sender, recipient, PENDING);
        requests, nextId := requests + [row], nextId + 1;
      }
      return Ok(row);
    }

    method FriendRequestAction(id: nat, accept: bool) returns (found: bool)
      modifies this
      ensures Model() == Apply(old(Model()), if accept then Accept(id) else Reject(id))
      ensures found == Row(old(requests), id).Some?
    {
      var row := Row(requests, id);
      if row.None? { return false; }
      if accept {
        requests := Update(requests, row.value.(status := ACCEPTED));
        friends := friends + [Friend(row.value.sender, row.value.recipient)];
      } else {
        requests := Update(requests, row.value.(status := REJECTED));
      }
      return true;
    }

    method Remove(user: UserId, friend: UserId)
      modifies this
      ensures Model() == Apply(old(Model()), RemoveFriend(user, friend))
    {
      friends := FriendsWithout(friends, user, friend);
      requests := RequestsWithout(requests, user, friend);
    }
  }
}
