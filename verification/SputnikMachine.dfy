/** The state machine of CInverterSputnikSSeries::ExecuteCommand: which callback leads to
    which request. What the requests carry is modelled in SputnikInverter.dfy. */
module SputnikMachine {
  import opened SharedLine

  /** CMD_INIT ... CMD_QUERY_POLL. */
  datatype Code =
    | Init
    | Wait4Connection
    | Disconnected
    | DisconnectedWait
    | EvaluateReceive
    | WaitSent
    | SendQueries
    | QueryPoll

  /** What the surroundings tell the inverter while it handles one callback. */
  datatype Input = Input(err: int, connected: bool, shutdown: bool, parsed: int, morePending: bool)

  /** Put the next callback into the scheduler, give it to the connection, or stop. */
  datatype Action = Schedule(next: Code) | Use(api: Api, hint: Hint, next: Code) | Stop

  function React(code: Code, i: Input): Action {
    match code
    case Disconnected =>
      if i.connected then Use(Disconnect, Plain, DisconnectedWait) else Schedule(DisconnectedWait)
    case DisconnectedWait => Schedule(Init)
    case Init => if i.shutdown then Stop else Use(Connect, Plain, Wait4Connection)
    case Wait4Connection => Schedule(if i.err < 0 then Disconnected else QueryPoll)
    case QueryPoll => Use(Send, Request, WaitSent)
    case SendQueries => Use(Send, Request, WaitSent)
    case WaitSent =>
      if i.err < 0 then Use(Noop, Cease, Disconnected) else Use(Receive, Cease, EvaluateReceive)
    case EvaluateReceive =>
      if i.err < 0 || i.parsed != 1 then Schedule(Disconnected)
      else if i.morePending then Schedule(SendQueries)
      else Schedule(QueryPoll)
  }
}
