/** The loops that serve a connection, and the handlers that update a prepared statement in place. */
module Postgres {
  import opened Checkpoint
  import opened Exchange
  import opened ExchangeProofs

  class PreparedStatement {
    const name: string
    const query: string
    var bound: bool
    var variables: seq<Value>
    var portal: string
    var described: bool
    var statement: Option<nat>
    var rows: Option<nat>
    var closed: bool

    constructor (name: string, query: string)
      ensures Fields() == Prepared(name, query, false, [], "", false, None, None, false)
    {
      this.name, this.query := name, query;
      bound, variables, portal, described, statement, rows, closed := false, [], "", false, None, None, false;
    }

    function Fields(): Prepared
      reads this
    {
      Prepared(name, query, bound, variables, portal, described, statement, rows, closed)
    }
  }

  class QueryHandler {
    var duckdb: Driver

    constructor ()
      ensures duckdb == IDLE_DRIVER
    {
      duckdb := IDLE_DRIVER;
    }

    function SessionOf(p: PreparedStatement): Session
      reads this, p
    {
      Session(p.Fields(), duckdb)
    }

    method CloseRows(p: PreparedStatement)
      modifies this, p`rows
      ensures SessionOf(p) == old(DropRows(SessionOf(p)))
    {
      if p.rows.Some? {
        duckdb := duckdb.CloseRows(p.rows.value);
        p.rows := None;
      }
    }

    /** PreparedStatement.Close: nil-safe and idempotent. */
    method ClosePrepared(p: PreparedStatement?)
      modifies this, p
      ensures p != null ==> SessionOf(p) == old(Release(SessionOf(p)))
      ensures p == null ==> duckdb == old(duckdb)
    {
      if p == null {
        return;
      }
      p.closed := true;
      CloseRows(p);
      if p.statement.Some? {
        duckdb := duckdb.ClosePlan(p.statement.value);
        p.statement := None;
      }
    }

    method PrepareStatement(p: PreparedStatement, answer: Answer) returns (ok: bool)
      modifies this, p`statement
      ensures ok <==> old(Prepare(SessionOf(p), answer)).Some?
      ensures SessionOf(p) == if ok then old(Prepare(SessionOf(p), answer)).value else old(SessionOf(p))
    {
      if p.closed {
        return false;
      }
      if p.statement.Some? {
        return true;
      }
      if answer.planFails {
        return false;
      }
      p.statement := Some(|duckdb.plans|);
      duckdb := duckdb.(plans := duckdb.plans + [Plan(p.query, true)]);
      return true;
    }

    /** The statement runs with the variables bound to it; what it returns stays open. */
    method QueryRows(p: PreparedStatement, answer: Answer)
      requires p.statement.Some?
      modifies this, p`rows
      ensures SessionOf(p) == old(OpenRows(SessionOf(p), answer))
    {
      p.rows := Some(|duckdb.rowSets|);
      duckdb := duckdb.(rowSets := duckdb.rowSets + [RowSet(p.statement.value, p.variables, answer.content, true, 0)]);
    }

    /** None is an error. */
    method HandleParseQuery(
        name: string, outcome: ParseOutcome) returns (replies: Option<seq<Reply>>, p: PreparedStatement?)
      ensures p != null ==> fresh(p)
      ensures BeginExchange(duckdb, name, outcome)
        == Turn(State(if p == null then None else Some(p.Fields()), replies.None?, duckdb),
                if replies.Some? then replies.value else [ErrorResponse], Continues)
    {
      match outcome {
        case ParseFails =>
          return None, null;
        case ManyStatements =>
          return None, null;
        case NoStatement =>
          p := new PreparedStatement(name, "");
          return Some([ParseComplete]), p;
        case OneStatement(query) =>
          p := new PreparedStatement(name, query);
          return Some([ParseComplete]), p;
      }
    }

    method HandleBindQuery(p: PreparedStatement, statement: string, portal: string, parameters: Option<seq<Value>>)
      returns (replies: Option<seq<Reply>>)
      modifies this, p
      ensures Handled(SessionOf(p), replies) == old(HandleBind(SessionOf(p), statement, portal, parameters))
    {
      CloseRows(p);
      if statement != p.name {
        return None;
      }
      if parameters.None? {
        return None;
      }
      p.bound := true;
      p.variables := parameters.value;
      p.portal := portal;
      return Some([BindComplete]);
    }

    method HandleDescribeQuery(p: PreparedStatement, objectType: ObjectType, name: string, answer: Answer)
      returns (replies: Option<seq<Reply>>)
      modifies this, p
      ensures Handled(SessionOf(p), replies) == old(HandleDescribe(SessionOf(p), objectType, name, answer))
    {
      CloseRows(p);
      match objectType {
        case Statement =>
          if name != p.name {
            return None;
          }
        case Portal =>
          if name != p.portal {
            return None;
          }
        case AnotherType =>
      }
      p.described := true;
      if p.query == "" || !p.bound {
        return Some([NoData]);
      }
      var planned := PrepareStatement(p, answer);
      if !planned {
        return None;
      }
      if answer.queryFails {
        return None;
      }
      QueryRows(p, answer);
      if answer.typesFail {
        return None;
      }
      return Some(if answer.describable then [RowDescription] else []);
    }

    /** The loop over the rows, and the deferred Close of them. */
    method RowsToDataMessages(p: PreparedStatement, answer: Answer) returns (replies: Option<seq<Reply>>)
      requires p.rows.Some?
      modifies this
      ensures Handled(SessionOf(p), replies) == old(ReadOut(SessionOf(p), answer))
    {
      var r := p.rows.value;
      if !duckdb.RowsAreOpen(r) {
        duckdb := duckdb.CloseRows(r);
        return None;
      }
      var content := duckdb.rowSets[r].content;
      var data := [];
      var i := 0;
      while i < |content| && i < answer.fetched
        invariant 0 <= i <= |Fetched(content, answer)| && |data| == i
        invariant forall k :: 0 <= k < i ==> data[k] == DataRow(content[k])
      {
        data := data + [DataRow(content[i])];
        i := i + 1;
      }
      assert data == DataRows(Fetched(content, answer));
      duckdb := duckdb.ScanRows(r).CloseRows(r);
      return if answer.dataFails then None else Some(data + [CommandComplete]);
    }

    method HandleExecuteQuery(
        p: PreparedStatement, portal: string, answer: Answer) returns (replies: Option<seq<Reply>>)
      modifies this, p
      ensures Handled(SessionOf(p), replies) == old(HandleExecute(SessionOf(p), portal, answer))
    {
      if portal != p.portal {
        return None;
      }
      if p.query == "" {
        return Some([EmptyQueryResponse]);
      }
      if p.rows.None? {
        var planned := PrepareStatement(p, answer);
        if !planned {
          return None;
        }
        if answer.queryFails {
          return None;
        }
        QueryRows(p, answer);
      }
      replies := RowsToDataMessages(p, answer);
    }

    method HandleCloseMessage(p: PreparedStatement, objectType: ObjectType, name: string)
      modifies this, p
      ensures SessionOf(p) == old(HandleClose(SessionOf(p), objectType, name))
    {
      if objectType.Statement? {
        if name == p.name {
          ClosePrepared(p);
        }
      } else if name == p.portal && p.rows.Some? {
        CloseRows(p);
      }
    }

    method HandleSimple(parseFails: bool, statements: seq<StatementOutcome>) returns (replies: Option<seq<Reply>>)
      ensures replies == HandleSimpleQuery(parseFails, statements)
    {
      if parseFails {
        return None;
      }
      if |statements| == 0 {
        return Some([EmptyQueryResponse]);
      }
      var messages := [];
      var i := 0;
      while i < |statements|
        invariant 0 <= i <= |statements|
        invariant SimpleReplies(statements[..i]) == Some(messages)
      {
        assert statements[..i + 1][..i] == statements[..i];
        match statements[i] {
          case StatementFails =>
            FailsAsAWhole(statements, i + 1);
            return None;
          case StatementReturns(describable, content) =>
            messages := messages + StatementReplies(statements[i]).value;
        }
        i := i + 1;
      }
      assert statements[..i] == statements;
      return Some(messages);
    }

    static lemma {:induction false} FailsAsAWhole(statements: seq<StatementOutcome>, i: nat)
      requires i <= |statements| && SimpleReplies(statements[..i]).None?
      ensures SimpleReplies(statements).None?
      decreases |statements| - i
    {
      if i < |statements| {
        assert statements[..i + 1][..i] == statements[..i];
        FailsAsAWhole(statements, i + 1);
      } else {
        assert statements[..i] == statements;
      }
    }
  }

  class Postgres {
    /** What the client sends from now on; after that it is gone. */
    var incoming: seq<Message>
    ghost var received: seq<Message>
    var sent: seq<Reply>
    const queryHandler: QueryHandler

    constructor (incoming: seq<Message>, queryHandler: QueryHandler)
      ensures this.incoming == incoming && received == [] && sent == [] && this.queryHandler == queryHandler
    {
      this.incoming, received, sent, this.queryHandler := incoming, [], [], queryHandler;
    }

    method Receive() returns (m: Option<Message>)
      modifies this`incoming, this`received
      ensures if old(incoming) == [] then m.None? && incoming == [] && received == old(received)
              else m == Some(old(incoming)[0]) && incoming == old(incoming)[1..] && received == old(received) + [m.value]
      ensures received + incoming == old(received + incoming)
    {
      if |incoming| == 0 {
        return None;
      }
      m := Some(incoming[0]);
      received := received + [incoming[0]];
      incoming := incoming[1..];
    }

    /** The replies so far are those to the messages so far, which lead to this point. */
    ghost predicate At(c: Connection)
      reads this
    {
      After(received) == c && sent == AllReplies(received)
    }

    ghost function StateOf(p: PreparedStatement?, failed: bool): State
      reads queryHandler, p
    {
      State(if p == null then None else Some(p.Fields()), failed, queryHandler.duckdb)
    }

    method WriteMessages(messages: seq<Reply>)
      modifies this`sent
      ensures sent == old(sent) + messages
    {
      sent := sent + messages;
    }

    /** One message of an exchange. The statement is not nil while no error is pending. */
    method Dispatch(m: Message, p: PreparedStatement?, failed: bool) returns (nowFailed: bool)
      requires p == null ==> failed
      requires !m.Sync? && !m.Terminate?
      modifies this`sent, queryHandler, p
      ensures var turn := old(HandleMessage(StateOf(p, failed), m));
        turn.control.Continues? && StateOf(p, nowFailed) == turn.after && sent == old(sent) + turn.replies
      ensures failed ==> nowFailed
    {
      if failed {
        return failed;     // skip everything until Sync
      }
      var replies := Some([]);
      match m {
        case Bind(statement, portal, variables) =>
          replies := queryHandler.HandleBindQuery(p, statement, portal, variables);
        case Describe(objectType, name, answer) =>
          replies := queryHandler.HandleDescribeQuery(p, objectType, name, answer);
        case Execute(portal, answer) =>
          replies := queryHandler.HandleExecuteQuery(p, portal, answer);
        case Close(objectType, name) =>
          queryHandler.HandleCloseMessage(p, objectType, name);
          replies := Some([CloseComplete]);
        case _ =>
      }
      if replies.None? {
        WriteMessages([ErrorResponse]);
        return true;
      }
      WriteMessages(replies.value);
      return false;
    }

    /** One more message has been received, and is not answered yet. */
    ghost predicate Answering(c: Connection, m: Message)
      reads this
    {
      && received != [] && received[|received| - 1] == m
      && After(received[..|received| - 1]) == c && sent == AllReplies(received[..|received| - 1])
    }

    lemma NowAnswering(before: seq<Message>, c: Connection, m: Message)
      requires After(before) == c && sent == AllReplies(before) && received == before + [m]
      ensures Answering(c, m)
    {
      assert received[..|before|] == before;
    }

    /** Once the replies that the message deserves are written, the conversation is at its next point. */
    static lemma Answered(received: seq<Message>, replies: seq<Reply>, c: Connection, m: Message)
      requires received != [] && received[|received| - 1] == m && After(received[..|received| - 1]) == c
      requires replies == AllReplies(received[..|received| - 1]) + Serve(c, m).replies
      ensures After(received) == Serve(c, m).after && replies == AllReplies(received)
    {
      hide Serve;
    }

    static lemma ParseServed(driver: Driver, name: string, outcome: ParseOutcome)
      ensures Serve(AtTop(driver), Parse(name, outcome))
        == Served(InExchange(BeginExchange(driver, name, outcome).after), BeginExchange(driver, name, outcome).replies)
    {
    }

    static lemma TerminateServed(x: State)
      ensures Serve(InExchange(x), Terminate) == Served(Ended(Leave(x).driver, false), [])
    {
      hide Leave;
    }

    static lemma SyncServed(x: State)
      requires x.prepared.None? ==> x.failed
      ensures Serve(InExchange(x), Sync) == Served(
        if x.failed || x.prepared.value.bound || x.prepared.value.described then AtTop(Leave(DropResult(x)).driver)
        else InExchange(DropResult(x)),
        [ReadyForQuery])
    {
      hide Leave, DropResult;
    }

    static lemma OtherServed(x: State, m: Message)
      requires HandleMessage(x, m).control.Continues?
      ensures Serve(InExchange(x), m) == Served(InExchange(HandleMessage(x, m).after), HandleMessage(x, m).replies)
    {
      hide HandleMessage;
    }

    /** Always answered. The statement is released when the exchange ends. */
    method HandleSync(p: PreparedStatement?, failed: bool) returns (ended: bool)
      requires p == null ==> failed
      modifies this`sent, queryHandler, p
      ensures sent == old(sent) + [ReadyForQuery]
      ensures ended <==> failed || old(p.bound || p.described)
      ensures ended ==> queryHandler.duckdb == old(Leave(DropResult(StateOf(p, failed)))).driver
      ensures !ended ==> StateOf(p, failed) == old(DropResult(StateOf(p, failed)))
    {
      hide DropRows, Release;
      if p != null {
        queryHandler.CloseRows(p);
      }
      WriteMessages([ReadyForQuery]);
      ended := failed || p.bound || p.described;
      if ended {
        queryHandler.ClosePrepared(p);
      }
    }

    /** From a Parse to the Sync that ends its exchange, or to the end of the connection. Whichever
      * way it is left, the statement is closed. */
    method HandleExtendedQuery(name: string, outcome: ParseOutcome) returns (alive: bool)
      requires Answering(AtTop(queryHandler.duckdb), Parse(name, outcome))
      modifies this, queryHandler
      ensures received + incoming == old(received + incoming) && |incoming| <= old(|incoming|)
      ensures sent == AllReplies(received)
      ensures if alive then After(received) == AtTop(queryHandler.duckdb)
              else HangUp(After(received)) == queryHandler.duckdb && (incoming == [] || After(received).Ended?)
    {
      hide After, AllReplies, HandleMessage, Serve, Release, DropRows;
      ghost var driver := queryHandler.duckdb;
      ParseServed(driver, name, outcome);
      var replies, p := queryHandler.HandleParseQuery(name, outcome);
      var failed := false;
      if replies.None? {
        WriteMessages([ErrorResponse]);
        failed := true;
      } else {
        WriteMessages(replies.value);
      }
      Answered(received, sent, AtTop(queryHandler.duckdb), Parse(name, outcome));
      assert At(InExchange(StateOf(p, failed)));
      while true
        invariant p == null || fresh(p)
        invariant p == null ==> failed
        invariant At(InExchange(StateOf(p, failed)))
        invariant received + incoming == old(received + incoming) && |incoming| <= old(|incoming|)
        decreases |incoming|
      {
        ghost var before, x := received, StateOf(p, failed);
        var message := Receive();
        if message.None? {
          queryHandler.ClosePrepared(p);
          return false;
        }
        var m := message.value;
        NowAnswering(before, InExchange(x), m);
        if m.Terminate? {
          TerminateServed(x);
          queryHandler.ClosePrepared(p);
          Answered(received, sent, InExchange(x), m);
          return false;
        }
        if m.Sync? {
          SyncServed(x);
          var ended := HandleSync(p, failed);
          if ended {
            Answered(received, sent, InExchange(x), m);
            return true;
          }
        } else {
          failed := Dispatch(m, p, failed);
          OtherServed(x, m);
        }
        Answered(received, sent, InExchange(x), m);
      }
    }

    method AnswerSimpleQuery(parseFails: bool, statements: seq<StatementOutcome>)
      modifies this`sent
      ensures var replies := HandleSimpleQuery(parseFails, statements);
        sent == old(sent) + (if replies.Some? then replies.value else [ErrorResponse]) + [ReadyForQuery]
    {
      var messages := queryHandler.HandleSimple(parseFails, statements);
      if messages.None? {
        WriteMessages([ErrorResponse]);
        WriteMessages([ReadyForQuery]);
        return;
      }
      WriteMessages(messages.value + [ReadyForQuery]);
    }

    /** The connection, from after the startup until the client terminates it, breaks off, or sends what
      * does not start anything. Everything sent is what the messages deserve, and nothing stays open. */
    method Run()
      requires received == [] && sent == [] && queryHandler.duckdb == IDLE_DRIVER
      modifies this, queryHandler
      ensures received + incoming == old(incoming)
      ensures sent == AllReplies(old(incoming))
      ensures AllReleased(queryHandler.duckdb)
    {
      hide After, AllReplies, Serve, AllReleased, HangUp;
      ghost var all := incoming;
      StartsAtTop();
      while true
        invariant At(AtTop(queryHandler.duckdb))
        invariant received + incoming == all
        decreases |incoming|
      {
        ghost var before, c := received, AtTop(queryHandler.duckdb);
        var message := Receive();
        if message.None? {
          assert received == all;
          HungUp(received, queryHandler.duckdb);
          return;
        }
        var m := message.value;
        NowAnswering(before, c, m);
        match m {
          case Query(parseFails, statements) =>
            QueryServed(queryHandler.duckdb, m);
            AnswerSimpleQuery(parseFails, statements);
            Answered(received, sent, c, m);
          case Parse(name, outcome) =>
            var alive := HandleExtendedQuery(name, outcome);
            if !alive {
              HungUp(received, queryHandler.duckdb);
              NothingMore(received, incoming);
              return;
            }
          case _ =>
            EndServed(queryHandler.duckdb, m);
            Answered(received, sent, c, m);
            HungUp(received, queryHandler.duckdb);
            NothingMore(received, incoming);
            return;
        }
      }
    }

    static lemma StartsAtTop()
      ensures After([]) == AtTop(IDLE_DRIVER) && AllReplies([]) == []
    {
    }

    static lemma HungUp(received: seq<Message>, driver: Driver)
      requires HangUp(After(received)) == driver || After(received) in {AtTop(driver), Ended(driver, false)}
      ensures AllReleased(driver)
    {
      hide AllReleased, After;
      NothingLeaks(received);
    }

    static lemma QueryServed(driver: Driver, m: Message)
      requires m.Query?
      ensures var replies := HandleSimpleQuery(m.parseFails, m.statements);
        Serve(AtTop(driver), m) ==
          Served(AtTop(driver), (if replies.Some? then replies.value else [ErrorResponse]) + [ReadyForQuery])
    {
    }

    static lemma EndServed(driver: Driver, m: Message)
      requires !m.Query? && !m.Parse?
      ensures Serve(AtTop(driver), m) == Served(Ended(driver, false), [])
    {
    }

    /** What comes after the end is not answered. */
    static lemma {:induction false} NothingMore(received: seq<Message>, rest: seq<Message>)
      requires rest == [] || After(received).Ended?
      ensures AllReplies(received + rest) == AllReplies(received)
      ensures rest != [] ==> After(received + rest).Ended?
    {
      hide Serve;
      if rest == [] {
        assert received + rest == received;
      } else {
        var all, init := received + rest, rest[..|rest| - 1];
        assert all[..|all| - 1] == received + init;
        NothingMore(received, init);
        assert received + [] == received;
        ServesNothing(After(received + init), rest[|rest| - 1]);
      }
    }

    static lemma ServesNothing(c: Connection, m: Message)
      requires c.Ended?
      ensures Serve(c, m) == Served(c, [])
    {
    }
  }
}
