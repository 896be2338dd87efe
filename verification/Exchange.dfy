/** The conversation with one client: simple queries, and exchanges of the extended query protocol. */
module Exchange {
  import opened Checkpoint

  type Value = string
  type Tuple = seq<Option<string>>

  // Messages carry, beside what the client sent, how DuckDB reacts to it

  datatype ParseOutcome = ParseFails | ManyStatements | NoStatement | OneStatement(query: string)

  datatype StatementOutcome = StatementFails | StatementReturns(describable: bool, content: seq<Tuple>)

  /** `fetched` is how far the result can be iterated before the driver breaks off. */
  datatype Answer = Answer(
    planFails: bool, queryFails: bool, content: seq<Tuple>,
    typesFail: bool, describable: bool, dataFails: bool, fetched: nat)

  datatype ObjectType = Statement | Portal | AnotherType

  datatype Message =
    | Query(parseFails: bool, statements: seq<StatementOutcome>)
    | Parse(name: string, outcome: ParseOutcome)
    | Bind(statement: string, portal: string, variables: Option<seq<Value>>)   // None: a parameter cannot be decoded
    | Describe(objectType: ObjectType, name: string, answer: Answer)
    | Execute(portal: string, answer: Answer)
    | Close(objectType: ObjectType, name: string)
    | Sync
    | Terminate
    | AnotherMessage

  datatype Reply =
    | ParseComplete | BindComplete | CloseComplete
    | RowDescription | NoData
    | DataRow(tuple: Tuple) | CommandComplete | EmptyQueryResponse
    | ErrorResponse
    | ReadyForQuery

  // The driver: every statement it planned and every row set it opened

  datatype Plan = Plan(query: string, open: bool)

  datatype RowSet = RowSet(plan: nat, variables: seq<Value>, content: seq<Tuple>, open: bool, scans: nat)

  datatype Driver = Driver(plans: seq<Plan>, rowSets: seq<RowSet>) {
    function ClosePlan(i: nat): Driver {
      if i < |plans| then this.(plans := plans[i := plans[i].(open := false)]) else this
    }

    function CloseRows(i: nat): Driver {
      if i < |rowSets| then this.(rowSets := rowSets[i := rowSets[i].(open := false)]) else this
    }

    function ScanRows(i: nat): Driver {
      if i < |rowSets| then this.(rowSets := rowSets[i := rowSets[i].(scans := rowSets[i].scans + 1)]) else this
    }

    predicate RowsAreOpen(i: nat) {
      i < |rowSets| && rowSets[i].open
    }
  }

  const IDLE_DRIVER := Driver([], [])

  /** The fields of a prepared statement; the driver's objects are named by their number. */
  datatype Prepared = Prepared(
    name: string, query: string, bound: bool, variables: seq<Value>, portal: string, described: bool,
    statement: Option<nat>, rows: Option<nat>, closed: bool)

  /** A prepared statement and the driver that holds its resources. */
  datatype Session = Session(prepared: Prepared, driver: Driver)

  function DropRows(s: Session): Session {
    if s.prepared.rows.None? then s
    else Session(s.prepared.(rows := None), s.driver.CloseRows(s.prepared.rows.value))
  }

  /** PreparedStatement.Close */
  function Release(s: Session): Session {
    var dropped := DropRows(Session(s.prepared.(closed := true), s.driver));
    if dropped.prepared.statement.None? then dropped
    else Session(dropped.prepared.(statement := None), dropped.driver.ClosePlan(dropped.prepared.statement.value))
  }

  /** None is an error. */
  function Prepare(s: Session, answer: Answer): Option<Session> {
    if s.prepared.closed then None
    else if s.prepared.statement.Some? then Some(s)
    else if answer.planFails then None
    else Some(Session(s.prepared.(statement := Some(|s.driver.plans|)),
                      s.driver.(plans := s.driver.plans + [Plan(s.prepared.query, true)])))
  }

  function OpenRows(s: Session, answer: Answer): Session
    requires s.prepared.statement.Some?
  {
    Session(s.prepared.(rows := Some(|s.driver.rowSets|)),
            s.driver.(rowSets := s.driver.rowSets
              + [RowSet(s.prepared.statement.value, s.prepared.variables, answer.content, true, 0)]))
  }

  /** A handler's result: the session it leaves, and its replies unless it failed. */
  datatype Handled = Handled(session: Session, replies: Option<seq<Reply>>)

  function HandleBind(s: Session, statement: string, portal: string, variables: Option<seq<Value>>): Handled {
    var dropped := DropRows(s);
    if statement != s.prepared.name || variables.None? then Handled(dropped, None)
    else Handled(dropped.(prepared := dropped.prepared.(bound := true, variables := variables.value, portal := portal)),
                 Some([BindComplete]))
  }

  function HandleDescribe(s: Session, objectType: ObjectType, name: string, answer: Answer): Handled {
    var dropped := DropRows(s);
    if (objectType.Statement? && name != s.prepared.name) || (objectType.Portal? && name != s.prepared.portal) then
      Handled(dropped, None)
    else
      var described := dropped.(prepared := dropped.prepared.(described := true));
      if s.prepared.query == "" || !s.prepared.bound then Handled(described, Some([NoData]))
      else
        var planned := Prepare(described, answer);
        if planned.None? then Handled(described, None)
        else if answer.queryFails then Handled(planned.value, None)
        else Handled(OpenRows(planned.value, answer),
                     if answer.typesFail then None else Some(if answer.describable then [RowDescription] else []))
  }

  function DataRows(content: seq<Tuple>): (replies: seq<Reply>)
    ensures |replies| == |content| && forall i :: 0 <= i < |content| ==> replies[i] == DataRow(content[i])
  {
    seq(|content|, i requires 0 <= i < |content| => DataRow(content[i]))
  }

  function Fetched(content: seq<Tuple>, answer: Answer): seq<Tuple> {
    if answer.fetched < |content| then content[..answer.fetched] else content
  }

  /** Iterating over the row set of the session, and closing it. Closed rows cannot be read. */
  function ReadOut(s: Session, answer: Answer): Handled
    requires s.prepared.rows.Some?
  {
    var r := s.prepared.rows.value;
    if !s.driver.RowsAreOpen(r) then Handled(s.(driver := s.driver.CloseRows(r)), None)
    else
      var after := s.(driver := s.driver.ScanRows(r).CloseRows(r));
      Handled(after, if answer.dataFails then None
                     else Some(DataRows(Fetched(s.driver.rowSets[r].content, answer)) + [CommandComplete]))
  }

  function HandleExecute(s: Session, portal: string, answer: Answer): Handled {
    if portal != s.prepared.portal then Handled(s, None)
    else if s.prepared.query == "" then Handled(s, Some([EmptyQueryResponse]))
    else if s.prepared.rows.Some? then ReadOut(s, answer)
    else
      var planned := Prepare(s, answer);
      if planned.None? then Handled(s, None)
      else if answer.queryFails then Handled(planned.value, None)
      else ReadOut(OpenRows(planned.value, answer), answer)
  }

  function HandleClose(s: Session, objectType: ObjectType, name: string): Session {
    if objectType.Statement? then (if name == s.prepared.name then Release(s) else s)
    else if name == s.prepared.portal then DropRows(s)
    else s
  }

  // The loop of one exchange

  /** `prepared` is nil after a Parse error; `failed` is that an error waits for its Sync. */
  datatype State = State(prepared: Option<Prepared>, failed: bool, driver: Driver)

  datatype Control = Continues | Completes | Disconnects | Crashes

  datatype Turn = Turn(after: State, replies: seq<Reply>, control: Control)

  /** The deferred Close. */
  function Leave(x: State): State {
    if x.prepared.None? then x
    else
      var s := Release(Session(x.prepared.value, x.driver));
      State(Some(s.prepared), x.failed, s.driver)
  }

  function DropResult(x: State): State {
    if x.prepared.None? then x
    else
      var s := DropRows(Session(x.prepared.value, x.driver));
      State(Some(s.prepared), x.failed, s.driver)
  }

  function Reacts(x: State, h: Handled): Turn {
    Turn(State(Some(h.session.prepared), x.failed || h.replies.None?, h.session.driver),
         if h.replies.Some? then h.replies.value else [ErrorResponse],
         Continues)
  }

  function BeginExchange(driver: Driver, name: string, outcome: ParseOutcome): Turn {
    match outcome
    case ParseFails => Turn(State(None, true, driver), [ErrorResponse], Continues)
    case ManyStatements => Turn(State(None, true, driver), [ErrorResponse], Continues)
    case NoStatement =>
      Turn(State(Some(Prepared(name, "", false, [], "", false, None, None, false)), false, driver), [ParseComplete], Continues)
    case OneStatement(query) =>
      Turn(State(Some(Prepared(name, query, false, [], "", false, None, None, false)), false, driver), [ParseComplete], Continues)
  }

  /** A handler that is given the nil statement panics, and the deferred Close still runs. */
  function HandleMessage(x: State, m: Message): Turn {
    if x.failed && !m.Sync? && !m.Terminate? then Turn(x, [], Continues)
    else if m.Terminate? then Turn(Leave(x), [], Disconnects)
    else if m.Sync? then
      var synced := DropResult(x);
      if x.failed then Turn(Leave(synced), [ReadyForQuery], Completes)
      else if x.prepared.None? then Turn(x, [ReadyForQuery], Crashes)
      else if x.prepared.value.bound || x.prepared.value.described then Turn(Leave(synced), [ReadyForQuery], Completes)
      else Turn(synced, [ReadyForQuery], Continues)
    else if m.Query? || m.Parse? || m.AnotherMessage? then Turn(x, [], Continues)
    else if x.prepared.None? then Turn(x, [], Crashes)
    else
      var s := Session(x.prepared.value, x.driver);
      match m
      case Bind(statement, portal, variables) => Reacts(x, HandleBind(s, statement, portal, variables))
      case Describe(objectType, name, answer) => Reacts(x, HandleDescribe(s, objectType, name, answer))
      case Execute(portal, answer) => Reacts(x, HandleExecute(s, portal, answer))
      case Close(objectType, name) => Reacts(x, Handled(HandleClose(s, objectType, name), Some([CloseComplete])))
  }

  // The loop of the connection

  function StatementReplies(outcome: StatementOutcome): Option<seq<Reply>> {
    match outcome
    case StatementFails => None
    case StatementReturns(describable, content) =>
      Some((if describable then [RowDescription] else []) + DataRows(content) + [CommandComplete])
  }

  /** All statements succeed, or the first error is all that is answered. */
  function SimpleReplies(statements: seq<StatementOutcome>): Option<seq<Reply>> {
    if statements == [] then Some([])
    else
      var earlier, last := SimpleReplies(statements[..|statements| - 1]), StatementReplies(statements[|statements| - 1]);
      if earlier.None? || last.None? then None else Some(earlier.value + last.value)
  }

  function HandleSimpleQuery(parseFails: bool, statements: seq<StatementOutcome>): Option<seq<Reply>> {
    if parseFails then None
    else if statements == [] then Some([EmptyQueryResponse])
    else SimpleReplies(statements)
  }

  datatype Connection = AtTop(driver: Driver) | InExchange(state: State) | Ended(driver: Driver, crashed: bool)

  datatype Served = Served(after: Connection, replies: seq<Reply>)

  function AfterTurn(turn: Turn): Served {
    Served(
      match turn.control
      case Continues => InExchange(turn.after)
      case Completes => AtTop(turn.after.driver)
      case Disconnects => Ended(turn.after.driver, false)
      case Crashes => Ended(turn.after.driver, true),
      turn.replies)
  }

  function Serve(c: Connection, m: Message): Served {
    match c
    case Ended(_, _) => Served(c, [])
    case InExchange(x) => AfterTurn(HandleMessage(x, m))
    case AtTop(driver) =>
      match m
      case Query(parseFails, statements) =>
        var replies := HandleSimpleQuery(parseFails, statements);
        Served(c, (if replies.Some? then replies.value else [ErrorResponse]) + [ReadyForQuery])
      case Parse(name, outcome) => AfterTurn(BeginExchange(driver, name, outcome))
      case _ => Served(Ended(driver, false), [])
  }

  function After(messages: seq<Message>): Connection {
    if messages == [] then AtTop(IDLE_DRIVER)
    else Serve(After(messages[..|messages| - 1]), messages[|messages| - 1]).after
  }

  /** The replies to the last message. */
  function RepliesTo(messages: seq<Message>): seq<Reply>
    requires messages != []
  {
    Serve(After(messages[..|messages| - 1]), messages[|messages| - 1]).replies
  }

  function AllReplies(messages: seq<Message>): seq<Reply> {
    if messages == [] then [] else AllReplies(messages[..|messages| - 1]) + RepliesTo(messages)
  }

  /** The client goes away in the middle. */
  function HangUp(c: Connection): Driver {
    match c
    case AtTop(driver) => driver
    case Ended(driver, _) => driver
    case InExchange(x) => Leave(x).driver
  }
}
