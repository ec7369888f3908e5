/** The decisions the handlers take over the tables: who may join, who is charged for a
    click, and when the end-of-round barrier opens. */
module Rules {
  import opened Wrappers
  import opened Tables

  // ---------------------------------------------------------------- admission

  datatype Admission = Admitted | RoomFull | JoinLocked | NameTaken

  /** The `addplayer` decision: the room size is checked first, then the join lock,
      then whether the name is already in `users`. */
  function Admit(userCount: nat, joinOpen: bool, sameName: nat): (a: Admission)
    ensures a == Admitted <==> userCount < MaxPlayers && joinOpen && sameName == 0
    ensures a == RoomFull <==> userCount >= MaxPlayers
    ensures a == JoinLocked <==> userCount < MaxPlayers && !joinOpen
    ensures a == NameTaken <==> userCount < MaxPlayers && joinOpen && sameName > 0
  {
    if userCount >= MaxPlayers then RoomFull
    else if !joinOpen then JoinLocked
    else if sameName != 0 then NameTaken
    else Admitted
  }

  /** The text of the `noexec` notice sent to a rejected player. */
  function RejectionMessage(a: Admission): string
  {
    match a
    case RoomFull => "The room is full (max 10 players)"
    case JoinLocked => "The game already started, please wait for the next round..."
    case NameTaken => "Someone is already using that name"
    case Admitted => ""
  }

  /** A roster of at most ten distinct names stays so after an admitted join. */
  lemma JoinKeepsRoster(users: seq<User>, joinOpen: bool, name: string, connId: string)
    requires |users| <= MaxPlayers && DistinctNames(users)
    requires Admit(|users|, joinOpen, CountName(users, name)) == Admitted
    ensures |users + [User(name, connId)]| <= MaxPlayers
    ensures DistinctNames(users + [User(name, connId)])
  {
    CountNameZero(users, name);
    var grown := users + [User(name, connId)];
    forall i, j | 0 <= i < j < |grown| ensures grown[i].name != grown[j].name {
      if j == |users| {
        assert grown[i] == users[i];
      } else {
        assert grown[i] == users[i] && grown[j] == users[j];
      }
    }
  }

  // ---------------------------------------------------------------- click resolution

  /** The player charged for the round: the clicker, when exactly one row is clicked. */
  function SoleClicker(clicks: seq<ClickRow>): (r: Option<string>)
  {
    var who := Clickers(clicks);
    if |who| == 1 then Some(who[0]) else None
  }

  /** There is a sole clicker `u` exactly when one row is clicked and it is `u`'s. */
  lemma SoleClickerIff(clicks: seq<ClickRow>, u: string)
    ensures SoleClicker(clicks) == Some(u) <==>
      exists k :: 0 <= k < |clicks| && ClickedIndices(clicks) == {k} && clicks[k].user == u
  {
    ClickersCount(clicks);
    var s := ClickedIndices(clicks);
    if SoleClicker(clicks) == Some(u) {
      var k :| k in s;
      assert s - {k} == {} by { assert |s - {k}| == |s| - 1; }
      assert s == {k};
      ClickersSingle(clicks, k);
    }
    if exists k :: 0 <= k < |clicks| && ClickedIndices(clicks) == {k} && clicks[k].user == u {
      var k :| 0 <= k < |clicks| && ClickedIndices(clicks) == {k} && clicks[k].user == u;
      ClickersSingle(clicks, k);
    }
  }

  /** The `points` table after one resolve step over `userCount` players. */
  function ResolvedPoints(points: seq<PointRow>, clicks: seq<ClickRow>, userCount: nat): (r: seq<PointRow>)
    requires SoleClicker(clicks).Some? ==> userCount > 0
    ensures |r| == |points|
  {
    match SoleClicker(clicks)
    case Some(u) => ChargeClick(points, u, 1.0 / userCount as real)
    case None => points
  }

  /** When the row at `k` is the only clicked one, each row of its user falls by exactly
      1/userCount and every other row is unchanged. */
  lemma SoleClickerCharged(points: seq<PointRow>, clicks: seq<ClickRow>, userCount: nat, k: nat)
    requires k < |clicks| && ClickedIndices(clicks) == {k}
    requires userCount > 0
    ensures var r := ResolvedPoints(points, clicks, userCount);
      forall i :: 0 <= i < |points| ==>
        r[i].user == points[i].user &&
        r[i].point == if points[i].user == clicks[k].user
                      then points[i].point - 1.0 / userCount as real
                      else points[i].point
  {
    SoleClickerIff(clicks, clicks[k].user);
  }

  /** With no clicked row, or with two or more, no row is charged. */
  lemma NoSoleClickerNoCharge(points: seq<PointRow>, clicks: seq<ClickRow>, userCount: nat)
    requires |ClickedIndices(clicks)| != 1
    ensures SoleClicker(clicks) == None
    ensures ResolvedPoints(points, clicks, userCount) == points
  {
    ClickersCount(clicks);
  }

  /** The `points` table after `times` resolve steps over the same `clicks` table (the
      `loop` handler, and so the resolve step, runs per socket). */
  function ResolvedTimes(points: seq<PointRow>, clicks: seq<ClickRow>, userCount: nat, times: nat): (r: seq<PointRow>)
    requires SoleClicker(clicks).Some? ==> userCount > 0
    ensures |r| == |points|
  {
    if times == 0 then points
    else ResolvedPoints(ResolvedTimes(points, clicks, userCount, times - 1), clicks, userCount)
  }

  /** After `times` resolve steps the sole clicker's rows have lost times/userCount. */
  lemma {:induction false} ResolvedTimesCharge(points: seq<PointRow>, clicks: seq<ClickRow>, userCount: nat, times: nat, u: string)
    requires SoleClicker(clicks) == Some(u) && userCount > 0
    ensures var r := ResolvedTimes(points, clicks, userCount, times);
      forall i :: 0 <= i < |points| ==>
        r[i].user == points[i].user &&
        r[i].point == if points[i].user == u
                      then points[i].point - times as real / userCount as real
                      else points[i].point
  {
    if times > 0 {
      ResolvedTimesCharge(points, clicks, userCount, times - 1, u);
      var before := ResolvedTimes(points, clicks, userCount, times - 1);
      forall i | 0 <= i < |points| && points[i].user == u
        ensures ResolvedTimes(points, clicks, userCount, times)[i].point
                == points[i].point - times as real / userCount as real
      {
        calc {
          ResolvedTimes(points, clicks, userCount, times)[i].point;
          before[i].point - 1.0 / userCount as real;
          points[i].point - (times - 1) as real / userCount as real - 1.0 / userCount as real;
          points[i].point - times as real / userCount as real;
        }
      }
    }
  }

  /** When `userCount` resolve steps run over the same clicks, the sole clicker loses
      exactly one point. */
  lemma EveryConnectionResolving(points: seq<PointRow>, clicks: seq<ClickRow>, userCount: nat, u: string)
    requires SoleClicker(clicks) == Some(u) && userCount > 0
    ensures var r := ResolvedTimes(points, clicks, userCount, userCount);
      forall i :: 0 <= i < |points| && points[i].user == u ==> r[i].point == points[i].point - 1.0
  {
    ResolvedTimesCharge(points, clicks, userCount, userCount, u);
  }

  // ---------------------------------------------------------------- sync barrier

  /** The `sync.count` row and the `syncInterval` flag. */
  datatype Barrier = Barrier(count: nat, released: bool)

  /** The barrier test of the acknowledgement step: `count >= usercount`. */
  predicate BarrierReached(count: nat, userCount: nat)
  {
    count >= userCount
  }

  /** One acknowledgement: count it, and set (never clear) the flag once enough arrived. */
  function Ack(b: Barrier, userCount: nat): (r: Barrier)
    ensures r.count == b.count + 1
    ensures b.released ==> r.released
  {
    Barrier(b.count + 1, b.released || BarrierReached(b.count + 1, userCount))
  }

  function AckTimes(b: Barrier, userCount: nat, times: nat): (r: Barrier)
  {
    if times == 0 then b else Ack(AckTimes(b, userCount, times - 1), userCount)
  }

  /** From a reset barrier, `times` acknowledgements with `userCount` players leave the
      count at `times` and open the barrier exactly when at least one arrived and
      `times >= userCount`. */
  lemma {:induction false} AckTimesFromReset(userCount: nat, times: nat)
    ensures AckTimes(Barrier(0, false), userCount, times) == Barrier(times, times > 0 && times >= userCount)
  {
    if times > 0 {
      AckTimesFromReset(userCount, times - 1);
    }
  }
}
