/** The game room: the four tables and the three module flags of the server, and one
    method per socket handler or timed step of a round. Each method runs atomically and
    returns the events it emits, in emission order. */
module Server {
  import opened Wrappers
  import opened Tables
  import opened Rules
  import opened Chat
  import opened Events

  const DefaultStartingPoints: int := 3
  const CountdownSeconds: int := 5
  const NotEnoughPlayersMessage: string := "Not enough players... (min 2 players)"
  const ServerName: string := "Server"

  /** The walk over the `clicks` table that opens the resolve step: how many rows are
      clicked, and the user of the last clicked row seen. */
  method TallyClicks(rows: seq<ClickRow>) returns (clickCount: nat, playerClicked: Option<string>)
    ensures clickCount == |Clickers(rows)|
    ensures playerClicked == if clickCount == 0 then None else Some(Clickers(rows)[clickCount - 1])
    ensures clickCount == 1 ==> playerClicked == SoleClicker(rows)
  {
    clickCount, playerClicked := 0, None;
    var i := 0;
    while i < |rows|
      invariant 0 <= i <= |rows|
      invariant clickCount == |Clickers(rows[..i])|
      invariant playerClicked == if clickCount == 0 then None else Some(Clickers(rows[..i])[clickCount - 1])
    {
      assert rows[..i + 1][..i] == rows[..i];
      if rows[i].clicked {
        clickCount := clickCount + 1;
        playerClicked := Some(rows[i].user);
      }
      i := i + 1;
    }
    assert rows[..|rows|] == rows;
  }

  /** The `showstatus` events for one user: one per (click row, point row) pair. */
  function StatusFor(name: string, cs: seq<bool>, ps: seq<real>): seq<Emit>
  {
    if cs == [] then []
    else seq(|ps|, j requires 0 <= j < |ps| => Emit(Caller, ShowStatus(name, cs[0], ps[j])))
         + StatusFor(name, cs[1..], ps)
  }

  /** The nested per-user query of the status phase, as a read-only projection. */
  function StatusReport(users: seq<User>, clicks: seq<ClickRow>, points: seq<PointRow>): seq<Emit>
  {
    if users == [] then []
    else StatusFor(users[0].name, ClicksOf(clicks, users[0].name), PointsOf(points, users[0].name))
         + StatusReport(users[1..], clicks, points)
  }

  /** When every user has exactly one row in each table, the report has one event per
      user, in roster order, carrying that user's click and points. */
  lemma {:induction false} StatusOnePerPlayer(users: seq<User>, clicks: seq<ClickRow>, points: seq<PointRow>)
    requires forall i :: 0 <= i < |users| ==>
      |ClicksOf(clicks, users[i].name)| == 1 && |PointsOf(points, users[i].name)| == 1
    ensures var r := StatusReport(users, clicks, points);
      |r| == |users| &&
      forall i :: 0 <= i < |users| ==>
        r[i] == Emit(Caller, ShowStatus(users[i].name, ClicksOf(clicks, users[i].name)[0],
                                        PointsOf(points, users[i].name)[0]))
  {
    if users != [] {
      var tail := users[1..];
      assert forall i :: 0 <= i < |tail| ==> tail[i] == users[i + 1];
      StatusOnePerPlayer(tail, clicks, points);
      var rest := StatusReport(tail, clicks, points);
      var n := users[0].name;
      var cs, ps := ClicksOf(clicks, n), PointsOf(points, n);
      var head := Emit(Caller, ShowStatus(n, cs[0], ps[0]));
      assert StatusFor(n, cs[1..], ps) == [] by { assert cs[1..] == []; }
      assert StatusFor(n, cs, ps) == [head];
      assert StatusReport(users, clicks, points) == [head] + rest;
    }
  }

  class Room {
    var users: seq<User>           // `users(user, userid)`, in insertion order
    var clicks: seq<ClickRow>      // `clicks(user, click)`
    var points: seq<PointRow>      // `points(user, point)`
    var syncCount: nat             // the single `sync(count)` row
    var joinOpen: bool             // `playerjoin`
    var startPoints: int           // `points`, the starting value
    var syncFlag: bool             // `syncInterval`

    /** At most ten players with distinct names; per-game rows only exist while at
        least two players are in the room; the starting value is positive. */
    ghost predicate Valid()
      reads this
    {
      && |users| <= MaxPlayers
      && DistinctNames(users)
      && (clicks != [] ==> |users| >= 2)
      && (points != [] ==> |users| >= 2)
      && startPoints > 0
    }

    /** The state at start-up: empty tables, a sync count of 0, joining open,
        three starting points and the sync flag down. */
    constructor ()
      ensures Valid()
      ensures users == [] && clicks == [] && points == [] && syncCount == 0
      ensures joinOpen && startPoints == DefaultStartingPoints && !syncFlag
    {
      users, clicks, points, syncCount := [], [], [], 0;
      joinOpen, startPoints, syncFlag := true, DefaultStartingPoints, false;
    }

    /** A new connection is told the current roster, one `addplayer` per user row. */
    method Connect() returns (out: seq<Emit>)
      ensures |out| == |users|
      ensures forall i :: 0 <= i < |users| ==> out[i] == Emit(Caller, AddPlayer(users[i].name))
    {
      out := RosterEvents(NamesOf(users));
    }

    /** `addplayer`: admit the name under this connection, or tell the caller why not. */
    method Join(name: string, connId: string) returns (out: seq<Emit>)
      requires Valid()
      modifies this`users
      ensures Valid()
      ensures var a := Admit(|old(users)|, joinOpen, CountName(old(users), name));
        if a == Admitted then
          users == old(users) + [User(name, connId)] && out == [Emit(Everyone, AddPlayer(name))]
        else
          users == old(users) && out == [Emit(Caller, NoExec(RejectionMessage(a), Login))]
    {
      var a := Admit(|users|, joinOpen, CountName(users, name));
      if a == Admitted {
        JoinKeepsRoster(users, joinOpen, name, connId);
        users := users + [User(name, connId)];
        out := [Emit(Everyone, AddPlayer(name))];
      } else {
        out := [Emit(Caller, NoExec(RejectionMessage(a), Login))];
      }
    }

    /** `disconnect`: drop every user row of this connection, announcing each; with fewer
        than two users left, clear the game tables and broadcast `endgame`. */
    method Disconnect(connId: string) returns (out: seq<Emit>)
      requires Valid()
      modifies this`users, this`clicks, this`points
      ensures Valid()
      ensures users == WithoutConn(old(users), connId)
      ensures |users| + |WithConn(old(users), connId)| == |old(users)|
      ensures var removed := RemovalEvents(NamesOf(WithConn(old(users), connId)));
        if |users| < 2 then
          clicks == [] && points == [] && out == removed + [Emit(Everyone, EndGame)]
        else
          clicks == old(clicks) && points == old(points) && out == removed
    {
      out := RemovalEvents(NamesOf(WithConn(users, connId)));
      ConnSplit(users, connId);
      WithoutConnDistinct(users, connId);
      users := WithoutConn(users, connId);
      if |users| < 2 {
        points, clicks := [], [];
        out := out + [Emit(Everyone, EndGame)];
      }
    }

    /** `togglejoin`: "on" opens joining, "off" closes it, anything else is ignored. */
    method ToggleJoin(kind: string)
      requires Valid()
      modifies this`joinOpen
      ensures Valid()
      ensures kind == "on" ==> joinOpen
      ensures kind == "off" ==> !joinOpen
      ensures kind != "on" && kind != "off" ==> joinOpen == old(joinOpen)
    {
      if kind == "on" {
        joinOpen := true;
      } else if kind == "off" {
        joinOpen := false;
      }
    }

    /** `chatmessage`: an accepted `Point` command sets the starting value and is announced
        by "Server"; any other line is broadcast under each name of the sender's rows. */
    method PostChat(connId: string, msg: string) returns (out: seq<Emit>)
      requires Valid()
      modifies this`startPoints
      ensures Valid()
      ensures PointSetting(msg).Some? ==>
        startPoints == PointSetting(msg).value &&
        out == [Emit(Everyone, ChatMessage(StartingPointsNotice(startPoints), ServerName))]
      ensures PointSetting(msg).None? ==>
        startPoints == old(startPoints) &&
        out == ChatEvents(msg, NamesOf(WithConn(users, connId)))
    {
      match PointSetting(msg)
      case Some(n) =>
        startPoints := n;
        out := [Emit(Everyone, ChatMessage(StartingPointsNotice(n), ServerName))];
      case None =>
        out := ChatEvents(msg, NamesOf(WithConn(users, connId)));
    }

    /** `startgame`: with fewer than two users only the caller is told; otherwise every
        user gets a `points` row at the starting value and an unclicked `clicks` row
        (appended to whatever rows exist), and all clients are told to start and,
        after a short delay, to begin the first round. */
    method Start() returns (out: seq<Emit>)
      requires Valid()
      modifies this`clicks, this`points
      ensures Valid()
      ensures |users| < 2 ==>
        clicks == old(clicks) && points == old(points) &&
        out == [Emit(Caller, NoExec(NotEnoughPlayersMessage, NoExecContext.Start))]
      ensures |users| >= 2 ==>
        points == old(points) + NewPointRows(users, startPoints as real) &&
        clicks == old(clicks) + NewClickRows(users) &&
        out == [Emit(Everyone, StartGame), Emit(Everyone, LoopSignal)]
    {
      if |users| < 2 {
        out := [Emit(Caller, NoExec(NotEnoughPlayersMessage, NoExecContext.Start))];
      } else {
        points := points + NewPointRows(users, startPoints as real);
        clicks := clicks + NewClickRows(users);
        out := [Emit(Everyone, StartGame), Emit(Everyone, LoopSignal)];
      }
    }

    /** The opening of `loop`: lower the sync flag; if some `points` row is exactly 0,
        broadcast `result` for each such row and stop; otherwise start the countdown. */
    method CheckElimination() returns (out: seq<Emit>, continues: bool)
      requires Valid()
      modifies this`syncFlag
      ensures Valid()
      ensures !syncFlag
      ensures continues <==> forall i :: 0 <= i < |points| ==> points[i].point != 0.0
      ensures continues ==> out == [Emit(Caller, Countdown(CountdownSeconds))]
      ensures !continues ==> out == ResultEvents(Losers(points))
    {
      syncFlag := false;
      var losers := Losers(points);
      NoLosers(points);
      if losers != [] {
        out, continues := ResultEvents(losers), false;
      } else {
        out, continues := [Emit(Caller, Countdown(CountdownSeconds))], true;
      }
    }

    /** The resolve step of `loop`: with exactly one clicked row, that user's points fall
        by 1/(number of users); then a second countdown starts. */
    method ResolveClicks() returns (out: seq<Emit>)
      requires Valid()
      modifies this`points
      ensures Valid()
      ensures points == ResolvedPoints(old(points), clicks, |users|)
      ensures out == [Emit(Caller, Countdown(CountdownSeconds))]
    {
      var clickCount, playerClicked := TallyClicks(clicks);
      if clickCount == 1 {
        var userCount := |users|;
        points := ChargeClick(points, playerClicked.value, 1.0 / userCount as real);
      }
      out := [Emit(Caller, Countdown(CountdownSeconds))];
    }

    /** The status step of `loop`: report every user's click and points to the caller. */
    method Status() returns (out: seq<Emit>)
      requires Valid()
      ensures out == StatusReport(users, clicks, points)
      ensures (forall i :: 0 <= i < |users| ==>
                 |ClicksOf(clicks, users[i].name)| == 1 && |PointsOf(points, users[i].name)| == 1)
              ==> |out| == |users|
    {
      out := StatusReport(users, clicks, points);
      if forall i :: 0 <= i < |users| ==>
           |ClicksOf(clicks, users[i].name)| == 1 && |PointsOf(points, users[i].name)| == 1 {
        StatusOnePerPlayer(users, clicks, points);
      }
    }

    /** The acknowledgement step of `loop`: count this connection in, and raise the sync
        flag once the count has reached the number of users. */
    method Acknowledge()
      requires Valid()
      modifies this`syncCount, this`syncFlag
      ensures Valid()
      ensures Barrier(syncCount, syncFlag) == Ack(Barrier(old(syncCount), old(syncFlag)), |users|)
    {
      var b := Ack(Barrier(syncCount, syncFlag), |users|);
      syncCount, syncFlag := b.count, b.released;
    }

    /** One poll of the release interval: while the flag is down nothing happens; once it
        is up, hide the status, reset every click and the count, and ask for the next
        round. */
    method Release() returns (out: seq<Emit>)
      requires Valid()
      modifies this`clicks, this`syncCount
      ensures Valid()
      ensures syncFlag ==>
        clicks == ClearClicks(old(clicks)) && syncCount == 0 &&
        out == [Emit(Caller, HideStatus), Emit(Caller, LoopSignal)]
      ensures !syncFlag ==> clicks == old(clicks) && syncCount == old(syncCount) && out == []
    {
      if syncFlag {
        clicks := ClearClicks(clicks);
        syncCount := 0;
        out := [Emit(Caller, HideStatus), Emit(Caller, LoopSignal)];
      } else {
        out := [];
      }
    }

    /** `clickbtn`: mark every `clicks` row of that name as clicked. */
    method Click(name: string)
      requires Valid()
      modifies this`clicks
      ensures Valid()
      ensures clicks == SetClick(old(clicks), name)
    {
      clicks := SetClick(clicks, name);
    }

    /** `endgame`: clear the game tables and tell every client; the roster stays. */
    method End() returns (out: seq<Emit>)
      requires Valid()
      modifies this`clicks, this`points
      ensures Valid()
      ensures clicks == [] && points == []
      ensures out == [Emit(Everyone, EndGame)]
    {
      clicks, points := [], [];
      out := [Emit(Everyone, EndGame)];
    }
  }
}
