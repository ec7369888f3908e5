/** The messages the server pushes to its clients. `io.emit` reaches every client,
    `socket.emit` only the connection whose handler is running. */
module Events {

  datatype Audience = Everyone | Caller

  /** The second argument of `noexec`: which client screen the notice belongs to. */
  datatype NoExecContext = Login | Start

  datatype Event =
    | AddPlayer(name: string)
    | RemovePlayer(name: string)
    | NoExec(message: string, context: NoExecContext)
    | ChatMessage(text: string, sender: string)
    | StartGame
    | LoopSignal                 // the "loop" event that makes a client ask for the next round
    | Countdown(seconds: int)
    | Result(loser: string)
    | ShowStatus(player: string, clicked: bool, point: real)
    | HideStatus
    | EndGame

  datatype Emit = Emit(to: Audience, event: Event)

  /** One `addplayer` to the caller per roster name, in row order. */
  function RosterEvents(names: seq<string>): (r: seq<Emit>)
    ensures |r| == |names|
    ensures forall i :: 0 <= i < |names| ==> r[i] == Emit(Caller, AddPlayer(names[i]))
  {
    seq(|names|, i requires 0 <= i < |names| => Emit(Caller, AddPlayer(names[i])))
  }

  /** One broadcast `removeplayer` per removed name, in row order. */
  function RemovalEvents(names: seq<string>): (r: seq<Emit>)
    ensures |r| == |names|
    ensures forall i :: 0 <= i < |names| ==> r[i] == Emit(Everyone, RemovePlayer(names[i]))
  {
    seq(|names|, i requires 0 <= i < |names| => Emit(Everyone, RemovePlayer(names[i])))
  }

  /** One broadcast `result` per eliminated name, in row order. */
  function ResultEvents(names: seq<string>): (r: seq<Emit>)
    ensures |r| == |names|
    ensures forall i :: 0 <= i < |names| ==> r[i] == Emit(Everyone, Result(names[i]))
  {
    seq(|names|, i requires 0 <= i < |names| => Emit(Everyone, Result(names[i])))
  }

  /** The same chat text broadcast once per sender name. */
  function ChatEvents(text: string, senders: seq<string>): (r: seq<Emit>)
    ensures |r| == |senders|
    ensures forall i :: 0 <= i < |senders| ==> r[i] == Emit(Everyone, ChatMessage(text, senders[i]))
  {
    seq(|senders|, i requires 0 <= i < |senders| => Emit(Everyone, ChatMessage(text, senders[i])))
  }
}
