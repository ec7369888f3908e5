/** Client code that drives a room through whole exchanges, using only the contracts of
    its methods: what a caller can rely on. */
module Scenarios {
  import opened Wrappers
  import opened Tables
  import opened Rules
  import opened Chat
  import opened Events
  import opened Server

  const Alice := User("Alice", "a")
  const Bob := User("Bob", "b")

  lemma AliceBobRows(start: real)
    ensures NewPointRows([Alice, Bob], start) == [PointRow("Alice", start), PointRow("Bob", start)]
    ensures NewClickRows([Alice, Bob]) == [ClickRow("Alice", false), ClickRow("Bob", false)]
  {
    assert [Alice, Bob][1..] == [Bob] && [Bob][1..] == [];
  }

  lemma AliceChargedHalf()
    ensures ResolvedPoints([PointRow("Alice", 3.0), PointRow("Bob", 3.0)],
                           [ClickRow("Alice", true), ClickRow("Bob", false)], 2)
            == [PointRow("Alice", 2.5), PointRow("Bob", 3.0)]
  {
    var clicks := [ClickRow("Alice", true), ClickRow("Bob", false)];
    assert clicks[..1] == [ClickRow("Alice", true)] && clicks[..1][..0] == [];
    assert Clickers(clicks) == ["Alice"];
  }

  /** Alice then Bob join a fresh room. */
  method TwoPlayerRoom() returns (room: Room)
    ensures fresh(room) && room.Valid()
    ensures room.users == [Alice, Bob] && room.clicks == [] && room.points == []
    ensures room.startPoints == DefaultStartingPoints
  {
    room := new Room();
    var _ := room.Join("Alice", "a");
    assert CountName([Alice], "Bob") == 0 by { assert [Alice][..0] == []; }
    var _ := room.Join("Bob", "b");
  }

  /** Two players start; Alice alone clicks, twice; one resolve step charges her 1/2. */
  method SoleClickCostsHalf()
  {
    var room := TwoPlayerRoom();
    AliceBobRows(3.0);
    var started := room.Start();
    assert started == [Emit(Everyone, Event.StartGame), Emit(Everyone, LoopSignal)];
    assert room.points == [PointRow("Alice", 3.0), PointRow("Bob", 3.0)];
    room.Click("Alice");
    room.Click("Alice");
    assert room.clicks == [ClickRow("Alice", true), ClickRow("Bob", false)];
    AliceChargedHalf();
    var _ := room.ResolveClicks();
    assert room.points == [PointRow("Alice", 2.5), PointRow("Bob", 3.0)];
  }

  /** A lone player cannot start: only the caller hears about it and no row appears. */
  method LonePlayerCannotStart()
  {
    var room := new Room();
    var _ := room.Join("Alice", "a");
    var out := room.Start();
    assert out == [Emit(Caller, NoExec("Not enough players... (min 2 players)", NoExecContext.Start))];
    assert room.points == [] && room.clicks == [];
  }

  /** A second join under a taken name is refused and the roster keeps one player. */
  method DuplicateNameRefused()
  {
    var room := new Room();
    var _ := room.Join("Alice", "a");
    var out := room.Join("Alice", "b");
    assert out == [Emit(Caller, NoExec("Someone is already using that name", Login))];
    assert |room.users| == 1;
  }

  lemma PointFiveAccepted()
    ensures PointSetting("Point 5") == Some(5)
  {
    PointCommandAccepted(5, "", "");
    assert PointPrefix + "" + DecimalString(5) + "" == "Point 5";
  }

  /** "Point " followed by a word that starts with neither a digit nor a sign, such as
      "Point abc", is not a command. */
  lemma PointWordIsChat(word: string)
    requires word != [] && !IsDigit(word[0]) && word[0] != '+' && word[0] != '-'
    requires !IsJsSpace(word[0]) && !IsJsSpace(word[|word| - 1])
    ensures PointSetting(PointPrefix + word) == None
  {
    TrimWord(word);
    NoDigitsIsChat(word);
  }

  lemma PointNAccepted(n: nat)
    requires n > 0
    ensures PointSetting(PointPrefix + DecimalString(n)) == Some(n)
  {
    UnpaddedIsPadded(PointPrefix, DecimalString(n));
    PointCommandAccepted(n, "", "");
  }

  /** Stated apart from `PointNAccepted`, where the same equation would be proved next to
      the unfolded command and run out of resource. */
  lemma UnpaddedIsPadded(a: string, b: string)
    ensures a + "" + b + "" == a + b
  {
  }

  /** "Point <n>" for a positive n sets the starting value used by the next start. */
  method PointCommandSetsStart(n: nat)
    requires n > 0
  {
    var room := TwoPlayerRoom();
    var msg := PointPrefix + DecimalString(n);
    PointNAccepted(n);
    var announced := room.PostChat("a", msg);
    assert room.startPoints == n;
    assert announced == [Emit(Everyone, ChatMessage(StartingPointsNotice(n), ServerName))];
    StartAtChosenPoints(room);
  }

  /** The next start gives every player a row at the chosen starting value. */
  method StartAtChosenPoints(room: Room)
    requires room.Valid() && room.users == [Alice, Bob] && room.clicks == [] && room.points == []
    modifies room
  {
    var n := room.startPoints;
    AliceBobRows(n as real);
    var _ := room.Start();
    assert room.points == [PointRow("Alice", n as real), PointRow("Bob", n as real)];
  }

  /** "Point <word>", such as "Point abc", is ordinary chat under the sender's name and
      changes nothing. */
  method MalformedPointIsChat(word: string)
    requires word != [] && !IsDigit(word[0]) && word[0] != '+' && word[0] != '-'
    requires !IsJsSpace(word[0]) && !IsJsSpace(word[|word| - 1])
  {
    var room := new Room();
    var _ := room.Join("Alice", "a");
    PointWordIsChat(word);
    var msg := PointPrefix + word;
    var chatted := room.PostChat("a", msg);
    assert room.startPoints == DefaultStartingPoints;
    assert WithConn(room.users, "a") == [User("Alice", "a")];
    assert chatted == [Emit(Everyone, ChatMessage(msg, "Alice"))];
  }

  lemma BobLeaves()
    ensures var users := [User("Alice", "a"), User("Bob", "b"), User("Carol", "c")];
      WithConn(users, "b") == [User("Bob", "b")] &&
      WithoutConn(users, "b") == [User("Alice", "a"), User("Carol", "c")]
  {
    var users := [User("Alice", "a"), User("Bob", "b"), User("Carol", "c")];
    assert users[1..] == [User("Bob", "b"), User("Carol", "c")];
    assert users[1..][1..] == [User("Carol", "c")];
    assert users[1..][1..][1..] == [];
  }

  lemma CarolLeaves()
    ensures var users := [User("Alice", "a"), User("Carol", "c")];
      WithConn(users, "c") == [User("Carol", "c")] &&
      WithoutConn(users, "c") == [User("Alice", "a")]
  {
    var users := [User("Alice", "a"), User("Carol", "c")];
    assert users[1..] == [User("Carol", "c")];
    assert users[1..][1..] == [];
  }

  /** Three players in a game; one leaves; the game goes on with its rows intact. */
  method DepartureKeepsGame(room: Room) returns (out: seq<Emit>)
    requires room.Valid()
    requires room.users == [User("Alice", "a"), User("Bob", "b"), User("Carol", "c")]
    requires |room.points| == 3 && |room.clicks| == 3
    modifies room
    ensures room.Valid()
    ensures room.users == [User("Alice", "a"), User("Carol", "c")]
    ensures out == [Emit(Everyone, RemovePlayer("Bob"))]
    ensures |room.points| == 3 && |room.clicks| == 3
  {
    BobLeaves();
    out := room.Disconnect("b");
  }

  /** Two players left in a game; one more leaves; the game ends and its tables are
      cleared. */
  method DepartureEndsGame(room: Room) returns (out: seq<Emit>)
    requires room.Valid()
    requires room.users == [User("Alice", "a"), User("Carol", "c")]
    requires |room.points| == 3 && |room.clicks| == 3
    modifies room
    ensures room.Valid()
    ensures room.users == [User("Alice", "a")]
    ensures out == [Emit(Everyone, RemovePlayer("Carol")), Emit(Everyone, EndGame)]
    ensures room.points == [] && room.clicks == []
  {
    CarolLeaves();
    out := room.Disconnect("c");
  }

  /** Both departures in one exchange: Bob leaves and the game goes on, then Carol leaves
      and the game ends. */
  method DeparturesEndGame(room: Room) returns (out: seq<Emit>)
    requires room.Valid()
    requires room.users == [User("Alice", "a"), User("Bob", "b"), User("Carol", "c")]
    requires |room.points| == 3 && |room.clicks| == 3
    modifies room
    ensures room.users == [User("Alice", "a")]
    ensures out == [Emit(Everyone, RemovePlayer("Bob")), Emit(Everyone, RemovePlayer("Carol")),
                    Emit(Everyone, EndGame)]
    ensures room.points == [] && room.clicks == []
  {
    var first := DepartureKeepsGame(room);
    var second := DepartureEndsGame(room);
    out := first + second;
  }
}
