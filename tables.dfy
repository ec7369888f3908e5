/** The four tables of the game database as in-memory rows, and the row-level queries
    and updates the handlers run on them (`SELECT ... WHERE`, `UPDATE ... SET`). */
module Tables {

  /** A row of `users`: a player name and the socket id that registered it. */
  datatype User = User(name: string, connId: string)

  /** A row of `clicks`. The column holds 0 or 1; `clicked` is `click == 1`. */
  datatype ClickRow = ClickRow(user: string, clicked: bool)

  /** A row of `points`. */
  datatype PointRow = PointRow(user: string, point: real)

  const MaxPlayers: nat := 10

  /** No two `users` rows carry the same name. */
  ghost predicate DistinctNames(users: seq<User>)
  {
    forall i, j :: 0 <= i < j < |users| ==> users[i].name != users[j].name
  }

  function NamesOf(users: seq<User>): (r: seq<string>)
    ensures |r| == |users|
    ensures forall i :: 0 <= i < |users| ==> r[i] == users[i].name
  {
    seq(|users|, i requires 0 <= i < |users| => users[i].name)
  }

  // ---------------------------------------------------------------- users

  /** `SELECT COUNT(*) FROM users WHERE user = name`. */
  function CountName(users: seq<User>, name: string): (n: nat)
    ensures n <= |users|
  {
    if users == [] then 0
    else CountName(users[..|users| - 1], name) + (if users[|users| - 1].name == name then 1 else 0)
  }

  /** The count is zero exactly when no row has that name. */
  lemma {:induction false} CountNameZero(users: seq<User>, name: string)
    ensures CountName(users, name) == 0 <==> forall i :: 0 <= i < |users| ==> users[i].name != name
  {
    if users != [] {
      var n := |users| - 1;
      CountNameZero(users[..n], name);
      assert forall i :: 0 <= i < n ==> users[..n][i] == users[i];
    }
  }

  /** `SELECT user FROM users WHERE userid = connId`, in row order. */
  function WithConn(users: seq<User>, connId: string): (r: seq<User>)
    ensures |r| <= |users|
    ensures forall u :: u in r <==> u in users && u.connId == connId
  {
    if users == [] then []
    else (if users[0].connId == connId then [users[0]] else []) + WithConn(users[1..], connId)
  }

  /** What `DELETE FROM users WHERE userid = connId` leaves, in row order. */
  function WithoutConn(users: seq<User>, connId: string): (r: seq<User>)
    ensures |r| <= |users|
    ensures forall u :: u in r <==> u in users && u.connId != connId
  {
    if users == [] then []
    else (if users[0].connId != connId then [users[0]] else []) + WithoutConn(users[1..], connId)
  }

  /** The delete removes exactly the rows the select reported: the two split the table. */
  lemma {:induction false} ConnSplit(users: seq<User>, connId: string)
    ensures |WithConn(users, connId)| + |WithoutConn(users, connId)| == |users|
  {
    if users != [] {
      ConnSplit(users[1..], connId);
    }
  }

  /** Deleting rows never creates a duplicate name. */
  lemma {:induction false} WithoutConnDistinct(users: seq<User>, connId: string)
    requires DistinctNames(users)
    ensures DistinctNames(WithoutConn(users, connId))
  {
    if users != [] {
      var tail := users[1..];
      assert DistinctNames(tail) by {
        forall i, j | 0 <= i < j < |tail| ensures tail[i].name != tail[j].name {
          assert tail[i] == users[i + 1] && tail[j] == users[j + 1];
        }
      }
      WithoutConnDistinct(tail, connId);
      var rest := WithoutConn(tail, connId);
      forall v | v in rest ensures v.name != users[0].name {
        var j :| 0 <= j < |tail| && tail[j] == v;
        assert users[j + 1] == v;
      }
    }
  }

  // ---------------------------------------------------------------- clicks

  /** `UPDATE clicks SET click = 1 WHERE user = name`. */
  function SetClick(rows: seq<ClickRow>, name: string): (r: seq<ClickRow>)
    ensures |r| == |rows|
    ensures forall i :: 0 <= i < |rows| ==>
      r[i] == if rows[i].user == name then ClickRow(rows[i].user, true) else rows[i]
  {
    seq(|rows|, i requires 0 <= i < |rows| =>
      if rows[i].user == name then ClickRow(rows[i].user, true) else rows[i])
  }

  /** A second click by the same player changes nothing. */
  lemma ClickIdempotent(rows: seq<ClickRow>, name: string)
    ensures SetClick(SetClick(rows, name), name) == SetClick(rows, name)
  {
  }

  /** A click under a name that has no `clicks` row leaves the table as it was. */
  lemma ClickUnknownName(rows: seq<ClickRow>, name: string)
    requires forall i :: 0 <= i < |rows| ==> rows[i].user != name
    ensures SetClick(rows, name) == rows
  {
  }

  /** `UPDATE clicks SET click = 0`. */
  function ClearClicks(rows: seq<ClickRow>): (r: seq<ClickRow>)
    ensures |r| == |rows|
    ensures forall i :: 0 <= i < |rows| ==> r[i] == ClickRow(rows[i].user, false)
  {
    seq(|rows|, i requires 0 <= i < |rows| => ClickRow(rows[i].user, false))
  }

  /** The users of the clicked rows, in row order: what the resolve loop walks past. */
  function Clickers(rows: seq<ClickRow>): (r: seq<string>)
    ensures |r| <= |rows|
  {
    if rows == [] then []
    else Clickers(rows[..|rows| - 1])
         + (if rows[|rows| - 1].clicked then [rows[|rows| - 1].user] else [])
  }

  /** The positions of the clicked rows. */
  ghost function ClickedIndices(rows: seq<ClickRow>): set<nat>
  {
    set i: nat | i < |rows| && rows[i].clicked
  }

  /** One clicker per clicked row. */
  lemma {:induction false} ClickersCount(rows: seq<ClickRow>)
    ensures |Clickers(rows)| == |ClickedIndices(rows)|
  {
    if rows != [] {
      var n := |rows| - 1;
      var front := rows[..n];
      ClickersCount(front);
      assert forall i :: 0 <= i < n ==> front[i] == rows[i];
      if rows[n].clicked {
        assert ClickedIndices(rows) == ClickedIndices(front) + {n};
      } else {
        assert ClickedIndices(rows) == ClickedIndices(front);
      }
    }
  }

  /** When exactly the row at `k` is clicked, its user is the only clicker. */
  lemma {:induction false} ClickersSingle(rows: seq<ClickRow>, k: nat)
    requires ClickedIndices(rows) == {k}
    ensures k < |rows|
    ensures Clickers(rows) == [rows[k].user]
  {
    assert k in ClickedIndices(rows);
    var n := |rows| - 1;
    var front := rows[..n];
    assert forall i :: 0 <= i < n ==> front[i] == rows[i];
    if k == n {
      forall i | i in ClickedIndices(front) ensures i in ClickedIndices(rows) && i < n { }
      assert ClickedIndices(front) == {};
      ClickersCount(front);
    } else {
      assert !rows[n].clicked by { assert n !in ClickedIndices(rows); }
      assert ClickedIndices(front) == {k};
      ClickersSingle(front, k);
    }
  }

  // ---------------------------------------------------------------- points

  /** `UPDATE points SET point = point - amount WHERE user = who`. */
  function ChargeClick(rows: seq<PointRow>, who: string, amount: real): (r: seq<PointRow>)
    ensures |r| == |rows|
    ensures forall i :: 0 <= i < |rows| ==>
      r[i] == if rows[i].user == who then PointRow(who, rows[i].point - amount) else rows[i]
  {
    seq(|rows|, i requires 0 <= i < |rows| =>
      if rows[i].user == who then PointRow(who, rows[i].point - amount) else rows[i])
  }

  /** Users of the `points` rows whose value is exactly 0, in row order. */
  function Losers(rows: seq<PointRow>): (r: seq<string>)
    ensures |r| <= |rows|
  {
    if rows == [] then []
    else (if rows[0].point == 0.0 then [rows[0].user] else []) + Losers(rows[1..])
  }

  /** A name is reported as a loser exactly when one of its rows holds 0. */
  lemma {:induction false} LosersSpec(rows: seq<PointRow>, name: string)
    ensures name in Losers(rows) <==>
      exists i :: 0 <= i < |rows| && rows[i].user == name && rows[i].point == 0.0
  {
    if rows != [] {
      LosersSpec(rows[1..], name);
      if name in Losers(rows[1..]) {
        var i :| 0 <= i < |rows[1..]| && rows[1..][i].user == name && rows[1..][i].point == 0.0;
        assert rows[i + 1] == rows[1..][i];
      }
      if exists i :: 0 <= i < |rows| && rows[i].user == name && rows[i].point == 0.0 {
        var i :| 0 <= i < |rows| && rows[i].user == name && rows[i].point == 0.0;
        if i > 0 {
          assert rows[1..][i - 1] == rows[i];
        }
      }
    }
  }

  /** No loser is reported exactly when no row holds 0. */
  lemma {:induction false} NoLosers(rows: seq<PointRow>)
    ensures Losers(rows) == [] <==> forall i :: 0 <= i < |rows| ==> rows[i].point != 0.0
  {
    if rows != [] {
      NoLosers(rows[1..]);
      assert forall i :: 1 <= i < |rows| ==> rows[1..][i - 1] == rows[i];
    }
  }

  // ---------------------------------------------------------------- per-player views

  /** `SELECT point FROM points WHERE user = name`, in row order. */
  function PointsOf(rows: seq<PointRow>, name: string): (r: seq<real>)
    ensures |r| <= |rows|
  {
    if rows == [] then []
    else (if rows[0].user == name then [rows[0].point] else []) + PointsOf(rows[1..], name)
  }

  /** `SELECT click FROM clicks WHERE user = name`, in row order. */
  function ClicksOf(rows: seq<ClickRow>, name: string): (r: seq<bool>)
    ensures |r| <= |rows|
  {
    if rows == [] then []
    else (if rows[0].user == name then [rows[0].clicked] else []) + ClicksOf(rows[1..], name)
  }

  lemma {:induction false} PointsOfAppend(a: seq<PointRow>, b: seq<PointRow>, name: string)
    ensures PointsOf(a + b, name) == PointsOf(a, name) + PointsOf(b, name)
  {
    if a == [] {
      assert a + b == b;
    } else {
      var head := if a[0].user == name then [a[0].point] else [];
      assert (a + b)[0] == a[0] && (a + b)[1..] == a[1..] + b;
      PointsOfAppend(a[1..], b, name);
      calc {
        PointsOf(a + b, name);
        head + PointsOf(a[1..] + b, name);
        head + (PointsOf(a[1..], name) + PointsOf(b, name));
        (head + PointsOf(a[1..], name)) + PointsOf(b, name);
      }
    }
  }

  lemma {:induction false} ClicksOfAppend(a: seq<ClickRow>, b: seq<ClickRow>, name: string)
    ensures ClicksOf(a + b, name) == ClicksOf(a, name) + ClicksOf(b, name)
  {
    if a == [] {
      assert a + b == b;
    } else {
      var head := if a[0].user == name then [a[0].clicked] else [];
      assert (a + b)[0] == a[0] && (a + b)[1..] == a[1..] + b;
      ClicksOfAppend(a[1..], b, name);
      calc {
        ClicksOf(a + b, name);
        head + ClicksOf(a[1..] + b, name);
        head + (ClicksOf(a[1..], name) + ClicksOf(b, name));
        (head + ClicksOf(a[1..], name)) + ClicksOf(b, name);
      }
    }
  }

  /** The `points` rows `startgame` inserts: one per user, each at the starting value. */
  function NewPointRows(users: seq<User>, start: real): (r: seq<PointRow>)
    ensures |r| == |users|
  {
    if users == [] then [] else [PointRow(users[0].name, start)] + NewPointRows(users[1..], start)
  }

  /** The `clicks` rows `startgame` inserts: one per user, not clicked. */
  function NewClickRows(users: seq<User>): (r: seq<ClickRow>)
    ensures |r| == |users|
  {
    if users == [] then [] else [ClickRow(users[0].name, false)] + NewClickRows(users[1..])
  }

  /** With distinct names, a start gives a listed player exactly one row of each kind
      (at the starting value, not clicked) and an unlisted name none. */
  lemma {:induction false} NewRowsPerPlayer(users: seq<User>, start: real, name: string)
    requires DistinctNames(users)
    ensures PointsOf(NewPointRows(users, start), name) ==
      if exists i :: 0 <= i < |users| && users[i].name == name then [start] else []
    ensures ClicksOf(NewClickRows(users), name) ==
      if exists i :: 0 <= i < |users| && users[i].name == name then [false] else []
  {
    if users != [] {
      var tail := users[1..];
      assert DistinctNames(tail) by {
        forall i, j | 0 <= i < j < |tail| ensures tail[i].name != tail[j].name {
          assert tail[i] == users[i + 1] && tail[j] == users[j + 1];
        }
      }
      NewRowsPerPlayer(tail, start, name);
      assert NewPointRows(users, start)[1..] == NewPointRows(tail, start);
      assert NewClickRows(users)[1..] == NewClickRows(tail);
      var inTail := exists i :: 0 <= i < |tail| && tail[i].name == name;
      if inTail {
        var i :| 0 <= i < |tail| && tail[i].name == name;
        assert users[i + 1] == tail[i];
        assert users[0].name != name;
      }
      if exists i :: 0 <= i < |users| && users[i].name == name {
        var i :| 0 <= i < |users| && users[i].name == name;
        if i > 0 { assert tail[i - 1] == users[i]; }
      }
    }
  }
}
