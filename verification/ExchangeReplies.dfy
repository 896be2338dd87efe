/** What the replies to a client contain, in terms of the messages alone. */
module ExchangeReplies {
  import opened Checkpoint
  import opened Exchange
  import opened ExchangeProofs

  // Simple queries

  /** The rows among the replies, in order. */
  function RowsIn(replies: seq<Reply>): seq<Tuple> {
    if replies == [] then []
    else RowsIn(replies[..|replies| - 1]) + (match replies[|replies| - 1] case DataRow(tuple) => [tuple] case _ => [])
  }

  /** The contents of all results, in order. */
  function Contents(statements: seq<StatementOutcome>): seq<Tuple> {
    if statements == [] then []
    else
      Contents(statements[..|statements| - 1])
      + (match statements[|statements| - 1] case StatementReturns(_, content) => content case StatementFails => [])
  }

  ghost predicate AllReturn(statements: seq<StatementOutcome>) {
    forall statement :: statement in statements ==> statement.StatementReturns?
  }

  /** What one statement is answered with: a description of the columns if it has one, its rows in order, and
    * that it is complete. */
  ghost predicate IsAnswered(statement: StatementOutcome, replies: seq<Reply>) {
    && statement.StatementReturns?
    && var d, n := if statement.describable then 1 else 0, |statement.content|;
      && |replies| == d + n + 1
      && (statement.describable ==> replies[0] == RowDescription)
      && (forall i :: 0 <= i < n ==> replies[d + i] == DataRow(statement.content[i]))
      && replies[d + n] == CommandComplete
  }

  ghost predicate IsAnsweredBy(statement: StatementOutcome, replies: seq<Reply>, from: nat, to: nat) {
    from <= to <= |replies| && IsAnswered(statement, replies[from..to])
  }

  /** The replies to the statement at `i` are those from `starts[i]` to `starts[i + 1]`. */
  ghost predicate InTurn(statements: seq<StatementOutcome>, replies: seq<Reply>, starts: seq<nat>) {
    && |starts| == |statements| + 1 && starts[0] == 0 && starts[|statements|] == |replies|
    && forall i :: 0 <= i < |statements| ==> IsAnsweredBy(statements[i], replies, starts[i], starts[i + 1])
  }

  lemma NextInTurn(
    init: seq<StatementOutcome>, before: seq<Reply>, earlier: seq<nat>, last: StatementOutcome, more: seq<Reply>)
    requires InTurn(init, before, earlier) && IsAnswered(last, more)
    ensures InTurn(init + [last], before + more, earlier + [|before| + |more|])
  {
    hide IsAnswered;
    var replies, starts := before + more, earlier + [|before| + |more|];
    forall i | 0 <= i < |init| ensures IsAnsweredBy(init[i], replies, starts[i], starts[i + 1]) {
      assert IsAnsweredBy(init[i], before, earlier[i], earlier[i + 1]);
      assert replies[starts[i]..starts[i + 1]] == before[earlier[i]..earlier[i + 1]];
    }
    assert replies[|before|..|replies|] == more;
  }

  lemma InBetween(head: seq<Reply>, rows: seq<Reply>, last: Reply, content: seq<Tuple>)
    requires |rows| == |content| && forall i :: 0 <= i < |content| ==> rows[i] == DataRow(content[i])
    ensures var replies, d := head + rows + [last], |head|;
      && replies[d + |content|] == last
      && forall i :: 0 <= i < |content| ==> replies[d + i] == DataRow(content[i])
  {
  }

  lemma StatementIsAnswered(statement: StatementOutcome)
    requires statement.StatementReturns?
    ensures IsAnswered(statement, StatementReplies(statement).value)
  {
    hide DataRows;
    var content := statement.content;
    InBetween(if statement.describable then [RowDescription] else [], DataRows(content), CommandComplete, content);
  }

  lemma {:induction false} StatementsInTurn(statements: seq<StatementOutcome>) returns (starts: seq<nat>)
    requires SimpleReplies(statements).Some?
    ensures InTurn(statements, SimpleReplies(statements).value, starts)
  {
    hide InTurn, StatementReplies;
    if statements == [] {
      starts := [0];
      NoneInTurn();
    } else {
      var init, last := statements[..|statements| - 1], statements[|statements| - 1];
      var earlier := StatementsInTurn(init);
      var before, more := SimpleReplies(init).value, StatementReplies(last).value;
      Returned(last);
      StatementIsAnswered(last);
      NextInTurn(init, before, earlier, last, more);
      assert init + [last] == statements;
      starts := earlier + [|before| + |more|];
    }
  }

  lemma NoneInTurn()
    ensures InTurn([], [], [0])
  {
  }

  lemma Returned(statement: StatementOutcome)
    ensures StatementReplies(statement).Some? <==> statement.StatementReturns?
  {
  }

  lemma {:induction false} AllReturnIff(statements: seq<StatementOutcome>)
    ensures SimpleReplies(statements).Some? <==> AllReturn(statements)
  {
    if statements != [] {
      var init, last := statements[..|statements| - 1], statements[|statements| - 1];
      AllReturnIff(init);
      Returned(last);
      assert forall statement :: statement in statements <==> statement in init || statement == last by {
        assert statements == init + [last];
      }
    }
  }

  lemma EndsWithCommand(statements: seq<StatementOutcome>, replies: seq<Reply>, starts: seq<nat>)
    requires InTurn(statements, replies, starts) && statements != []
    ensures replies != [] && replies[|replies| - 1] == CommandComplete
  {
    var i := |statements| - 1;
    assert IsAnsweredBy(statements[i], replies, starts[i], starts[i + 1]);
  }

  /** A simple query is answered by one error if and only if it cannot be parsed or a statement of it fails. An
    * empty one has an answer of its own. Otherwise the statements are answered one after the other. */
  lemma SimpleQueryIsAnswered(driver: Driver, parseFails: bool, statements: seq<StatementOutcome>)
      returns (starts: seq<nat>)
    ensures var replies := Serve(AtTop(driver), Query(parseFails, statements)).replies;
      && (replies == [ErrorResponse, ReadyForQuery] <==> parseFails || !AllReturn(statements))
      && (!parseFails && statements == [] ==> replies == [EmptyQueryResponse, ReadyForQuery])
      && (!parseFails && statements != [] && AllReturn(statements) ==>
            && |replies| > 0 && replies[|replies| - 1] == ReadyForQuery
            && InTurn(statements, replies[..|replies| - 1], starts))
  {
    hide SimpleReplies, InTurn, AllReturn;
    AllReturnIff(statements);
    var replies := Serve(AtTop(driver), Query(parseFails, statements)).replies;
    starts := [];
    if !parseFails && statements != [] && AllReturn(statements) {
      starts := StatementsInTurn(statements);
      assert replies[..|replies| - 1] == SimpleReplies(statements).value;
      EndsWithCommand(statements, replies[..|replies| - 1], starts);
      assert replies[..|replies| - 1][|replies| - 2] == replies[|replies| - 2];
    } else if !parseFails && statements == [] {
      NoStatementFails();
      assert replies[0] == EmptyQueryResponse;
    }
  }

  lemma NoStatementFails()
    ensures AllReturn([])
  {
  }

  lemma {:induction false} RowsInConcat(a: seq<Reply>, b: seq<Reply>)
    ensures RowsIn(a + b) == RowsIn(a) + RowsIn(b)
  {
    if b == [] {
      assert a + b == a;
    } else {
      assert (a + b)[..|a + b| - 1] == a + b[..|b| - 1];
      RowsInConcat(a, b[..|b| - 1]);
    }
  }

  lemma {:induction false} RowsInRows(replies: seq<Reply>, content: seq<Tuple>)
    requires |replies| == |content| && forall i :: 0 <= i < |content| ==> replies[i] == DataRow(content[i])
    ensures RowsIn(replies) == content
  {
    if content != [] {
      RowsInRows(replies[..|replies| - 1], content[..|content| - 1]);
    }
  }

  /** The rows that the client gets are those of all results, none twice, none left out, in order. */
  lemma SimpleQueryReturnsContents(driver: Driver, statements: seq<StatementOutcome>)
    requires AllReturn(statements)
    ensures RowsIn(Serve(AtTop(driver), Query(false, statements)).replies) == Contents(statements)
  {
    hide SimpleReplies, RowsIn, Contents;
    AllReturnIff(statements);
    var replies := HandleSimpleQuery(false, statements).value;
    RowsInConcat(replies, [ReadyForQuery]);
    NoRowsIn(ReadyForQuery);
    NoRowsIn(EmptyQueryResponse);
    RepliesHoldContents(statements);
  }

  lemma NoRowsIn(reply: Reply)
    ensures !reply.DataRow? ==> RowsIn([reply]) == []
    ensures RowsIn([]) == []
    ensures Contents([]) == []
  {
    assert [reply][..0] == [];
  }

  lemma {:induction false} RepliesHoldContents(statements: seq<StatementOutcome>)
    requires SimpleReplies(statements).Some?
    ensures RowsIn(SimpleReplies(statements).value) == Contents(statements)
  {
    hide RowsIn;
    NoRowsIn(RowDescription);
    NoRowsIn(CommandComplete);
    if statements != [] {
      var init, last := statements[..|statements| - 1], statements[|statements| - 1];
      RepliesHoldContents(init);
      var head := if last.describable then [RowDescription] else [];
      RowsInConcat(SimpleReplies(init).value, StatementReplies(last).value);
      RowsInConcat(head + DataRows(last.content), [CommandComplete]);
      RowsInConcat(head, DataRows(last.content));
      RowsInRows(DataRows(last.content), last.content);
    }
  }

  // Names

  /** The name that the last successful Parse gave its statement. */
  function ParsedName(messages: seq<Message>): string {
    if messages == [] then ""
    else
      var m := messages[|messages| - 1];
      if m.Parse? && RepliesTo(messages) == [ParseComplete] then m.name else ParsedName(messages[..|messages| - 1])
  }

  /** The portal of the last successful Bind since then. */
  function BoundPortal(messages: seq<Message>): string {
    if messages == [] then ""
    else
      var m := messages[|messages| - 1];
      if m.Parse? && RepliesTo(messages) == [ParseComplete] then ""
      else if m.Bind? && RepliesTo(messages) == [BindComplete] then m.portal
      else BoundPortal(messages[..|messages| - 1])
  }

  /** The client has closed the statement since then. */
  function WasClosed(messages: seq<Message>): bool {
    if messages == [] then false
    else
      var m, init := messages[|messages| - 1], messages[..|messages| - 1];
      if m.Parse? && RepliesTo(messages) == [ParseComplete] then false
      else (m.Close? && m.objectType.Statement? && m.name == ParsedName(init) && RepliesTo(messages) == [CloseComplete])
           || WasClosed(init)
  }

  ghost predicate HasNames(c: Connection, name: string, portal: string, closed: bool) {
    c.InExchange? && c.state.prepared.Some? ==>
      var p := c.state.prepared.value; p.name == name && p.portal == portal && (!c.state.failed ==> p.closed == closed)
  }

  predicate SameNames(s: Session, t: Session) {
    s.prepared.name == t.prepared.name && s.prepared.portal == t.prepared.portal && s.prepared.closed == t.prepared.closed
  }

  lemma HandlersKeepNames(s: Session, m: Message)
    ensures m.Bind? ==>
      var h := HandleBind(s, m.statement, m.portal, m.variables);
      if h.replies.None? then SameNames(s, h.session)
      else h.replies == Some([BindComplete]) && SameNames(s.(prepared := s.prepared.(portal := m.portal)), h.session)
    ensures m.Describe? ==> SameNames(s, HandleDescribe(s, m.objectType, m.name, m.answer).session)
    ensures m.Execute? ==> SameNames(s, HandleExecute(s, m.portal, m.answer).session)
    ensures m.Close? ==>
      var t := HandleClose(s, m.objectType, m.name);
      SameNames(if m.objectType.Statement? && m.name == s.prepared.name then s.(prepared := s.prepared.(closed := true)) else s, t)
  {
    hide DataRows, Fetched;
  }

  lemma TurnKeepsNames(x: State, m: Message, name: string, portal: string, closed: bool)
    requires HasNames(InExchange(x), name, portal, closed)
    ensures var served := Serve(InExchange(x), m);
      && served.replies != [ParseComplete]
      && HasNames(served.after, name,
                  if m.Bind? && served.replies == [BindComplete] then m.portal else portal,
                  (m.Close? && m.objectType.Statement? && m.name == name && served.replies == [CloseComplete]) || closed)
  {
    hide HandleBind, HandleDescribe, HandleExecute, HandleClose, Release;
    TurnAnswers(x, m);
    if x.prepared.Some? {
      HandlersKeepNames(Session(x.prepared.value, x.driver), m);
    }
  }

  lemma ParseNames(c: Connection, m: Message)
    requires !c.InExchange?
    ensures var served := Serve(c, m);
      if m.Parse? && served.replies == [ParseComplete] then HasNames(served.after, m.name, "", false)
      else forall name, portal, closed :: HasNames(served.after, name, portal, closed)
  {
    hide HandleSimpleQuery;
  }

  lemma {:induction false} NamesAreLatest(messages: seq<Message>)
    ensures HasNames(After(messages), ParsedName(messages), BoundPortal(messages), WasClosed(messages))
  {
    hide Serve, HasNames;
    if messages == [] {
      NoNames();
    } else {
      var init, m := messages[..|messages| - 1], messages[|messages| - 1];
      NamesAreLatest(init);
      if After(init).InExchange? {
        TurnKeepsNames(After(init).state, m, ParsedName(init), BoundPortal(init), WasClosed(init));
      } else {
        ParseNames(After(init), m);
      }
    }
  }

  lemma NoNames()
    ensures HasNames(AtTop(IDLE_DRIVER), "", "", false)
  {
  }

  // How the conversation goes on

  /** Only a Parse begins an exchange, and only a Sync can complete it. The connection ends with a Terminate, or with
    * what begins nothing between exchanges; no error ends it. */
  lemma ConversationGoesOn(messages: seq<Message>, m: Message)
    ensures var c, next := After(messages), Serve(After(messages), m).after;
      && (next.Ended? <==> c.Ended? || m.Terminate? || (c.AtTop? && !m.Query? && !m.Parse?))
      && (c.AtTop? && m.Parse? ==> next.InExchange?)
      && (c.AtTop? && m.Query? ==> next == c)
      && (c.InExchange? && !m.Sync? && !m.Terminate? ==> next.InExchange?)
      && (c.Ended? ==> next == c && Serve(c, m).replies == [])
  {
    hide After, HandleBind, HandleDescribe, HandleExecute, HandleClose, Release, DropRows, Owns, AllReleased, ScannedOnce;
    EveryConnectionIsSound(messages);
  }

  // When a message is answered with an error

  /** Planning the current statement fails. */
  ghost predicate CannotPlan(messages: seq<Message>, answer: Answer) {
    WasClosed(messages) || (!HasPlan(After(messages)) && answer.planFails)
  }

  ghost predicate HasPlan(c: Connection) {
    c.InExchange? && c.state.prepared.Some? && c.state.prepared.value.statement.Some?
  }

  /** A described or executed result is still there, and `read` if it was read already. */
  ghost predicate HasResult(c: Connection, read: bool) {
    && c.InExchange? && c.state.prepared.Some? && c.state.prepared.value.rows.Some?
    && read == !c.state.driver.RowsAreOpen(c.state.prepared.value.rows.value)
  }

  /** A Parse fails if and only if its query cannot be parsed, or is more than one statement. */
  lemma ParseFailsIff(driver: Driver, name: string, outcome: ParseOutcome)
    ensures Serve(AtTop(driver), Parse(name, outcome)).replies ==
      [if outcome.ParseFails? || outcome.ManyStatements? then ErrorResponse else ParseComplete]
  {
  }

  /** A Bind fails if and only if it names another statement, or a parameter cannot be decoded. */
  lemma BindFailsIff(messages: seq<Message>, statement: string, portal: string, variables: Option<seq<Value>>)
    requires After(messages).InExchange? && !After(messages).state.failed
    ensures Serve(After(messages), Bind(statement, portal, variables)).replies ==
      [if statement != ParsedName(messages) || variables.None? then ErrorResponse else BindComplete]
  {
    hide After, ParsedName, BoundPortal, WasClosed, DropRows, Owns;
    NamesAreLatest(messages);
    EveryConnectionIsSound(messages);
  }

  /** A Describe fails if and only if it names another statement or portal, or a query that is bound cannot be
    * planned, run or described. It has a description if and only if such a query has one. */
  lemma DescribeFailsIff(messages: seq<Message>, objectType: ObjectType, name: string, answer: Answer)
    requires After(messages).InExchange? && !After(messages).state.failed
    ensures var named := (objectType.Statement? ==> name == ParsedName(messages)) && (objectType.Portal? ==> name == BoundPortal(messages));
      var runs := ParsedQuery(messages) != "" && WasBound(messages);
      Serve(After(messages), Describe(objectType, name, answer)).replies ==
        if !named || (runs && (CannotPlan(messages, answer) || answer.queryFails || answer.typesFail)) then [ErrorResponse]
        else if !runs then [NoData]
        else if answer.describable then [RowDescription]
        else []
  {
    hide After, ParsedName, BoundPortal, WasClosed, WasBound, WasDescribed, Erred, ParsedQuery, BoundVariables, Owns;
    NamesAreLatest(messages);
    HistoryIsKept(messages);
    BindingIsLatest(messages);
    EveryConnectionIsSound(messages);
  }

  /** An Execute fails if and only if it names another portal, or there is a query and: its result was read already,
    * or it has none yet and cannot be planned or run, or reading it fails. */
  lemma ExecuteFailsIff(messages: seq<Message>, portal: string, answer: Answer)
    requires After(messages).InExchange? && !After(messages).state.failed
    ensures var c, replies := After(messages), Serve(After(messages), Execute(portal, answer)).replies;
      replies == [ErrorResponse] <==>
        || portal != BoundPortal(messages)
        || (ParsedQuery(messages) != ""
            && (HasResult(c, true) || answer.dataFails
                || (!HasResult(c, false) && (CannotPlan(messages, answer) || answer.queryFails))))
  {
    hide After, ParsedName, BoundPortal, WasClosed, ParsedQuery, BoundVariables, Owns, HandleExecute;
    NamesAreLatest(messages);
    BindingIsLatest(messages);
    EveryConnectionIsSound(messages);
    var s := Session(After(messages).state.prepared.value, After(messages).state.driver);
    HandlersAnswer(s, Execute(portal, answer));
    ExecuteErrs(s, portal, answer);
    assert ErrorResponse in [ErrorResponse];
  }

  lemma ExecuteErrs(s: Session, portal: string, answer: Answer)
    ensures HandleExecute(s, portal, answer).replies.None? <==>
      || portal != s.prepared.portal
      || (s.prepared.query != ""
          && (answer.dataFails
              || if s.prepared.rows.Some? then !s.driver.RowsAreOpen(s.prepared.rows.value)
                 else s.prepared.closed || (s.prepared.statement.None? && answer.planFails) || answer.queryFails))
  {
    hide Fetched, DataRows;
  }

  /** Closing a name that is not the current one is answered, and does nothing. */
  lemma OtherNamesAreIgnored(messages: seq<Message>, objectType: ObjectType, name: string)
    requires After(messages).InExchange? && !After(messages).state.failed
    requires name != if objectType.Statement? then ParsedName(messages) else BoundPortal(messages)
    ensures Serve(After(messages), Close(objectType, name)) == Served(After(messages), [CloseComplete])
  {
    hide After, ParsedName, BoundPortal, WasClosed, Owns, Release, DropRows;
    NamesAreLatest(messages);
    EveryConnectionIsSound(messages);
  }

  // Results

  /** The contents that the database answered with, one for every result that was opened. */
  function Opened(messages: seq<Message>): seq<seq<Tuple>> {
    if messages == [] then []
    else
      var m, init := messages[|messages| - 1], messages[..|messages| - 1];
      if (m.Describe? || m.Execute?) && |DriverOf(After(messages)).rowSets| > |DriverOf(After(init)).rowSets|
      then Opened(init) + [m.answer.content]
      else Opened(init)
  }

  /** No result changes, and at most one is added, which is what the database answered to this message. */
  ghost predicate HoldsAnswer(before: Driver, after: Driver, m: Message) {
    && |before.rowSets| <= |after.rowSets| <= |before.rowSets| + 1
    && (forall r :: 0 <= r < |before.rowSets| ==> after.rowSets[r].content == before.rowSets[r].content)
    && (|after.rowSets| > |before.rowSets| ==>
          (m.Describe? || m.Execute?) && after.rowSets[|before.rowSets|].content == m.answer.content)
  }

  ghost predicate SameContents(before: Driver, after: Driver) {
    && |after.rowSets| == |before.rowSets|
    && forall r :: 0 <= r < |before.rowSets| ==> after.rowSets[r].content == before.rowSets[r].content
  }

  lemma ClosingKeepsContents(s: Session)
    ensures SameContents(s.driver, Release(s).driver) && SameContents(s.driver, DropRows(s).driver)
    ensures SameContents(s.driver, Release(DropRows(s)).driver)
  {
  }

  lemma HandlersHoldAnswers(s: Session, m: Message)
    ensures m.Bind? ==> HoldsAnswer(s.driver, HandleBind(s, m.statement, m.portal, m.variables).session.driver, m)
    ensures m.Describe? ==> HoldsAnswer(s.driver, HandleDescribe(s, m.objectType, m.name, m.answer).session.driver, m)
    ensures m.Execute? ==> HoldsAnswer(s.driver, HandleExecute(s, m.portal, m.answer).session.driver, m)
    ensures m.Close? ==> HoldsAnswer(s.driver, HandleClose(s, m.objectType, m.name).driver, m)
  {
    hide DataRows, Fetched, Release, DropRows;
    ClosingKeepsContents(s);
  }

  lemma ServeHoldsAnswers(c: Connection, m: Message)
    ensures HoldsAnswer(DriverOf(c), DriverOf(Serve(c, m).after), m)
  {
    hide HandleBind, HandleDescribe, HandleExecute, HandleClose, Release, DropRows, HandleSimpleQuery;
    if c.InExchange? && c.state.prepared.Some? {
      HandlersHoldAnswers(Session(c.state.prepared.value, c.state.driver), m);
      ClosingKeepsContents(Session(c.state.prepared.value, c.state.driver));
    }
  }

  /** Whatever the driver holds is what the database answered, result by result. */
  lemma {:induction false} ResultsAreAnswers(messages: seq<Message>)
    ensures var rowSets := DriverOf(After(messages)).rowSets;
      |rowSets| == |Opened(messages)| && forall r :: 0 <= r < |rowSets| ==> rowSets[r].content == Opened(messages)[r]
  {
    hide Serve;
    if messages != [] {
      var init, m := messages[..|messages| - 1], messages[|messages| - 1];
      ResultsAreAnswers(init);
      ServeHoldsAnswers(After(init), m);
    }
  }

  /** A successful Execute of a query returns the latest result that the database answered with, which is its own
    * answer unless there was a described one to read. */
  lemma ExecuteReturnsTheAnswer(messages: seq<Message>, portal: string, answer: Answer)
    requires After(messages).InExchange? && ParsedQuery(messages) != ""
    requires var replies := Serve(After(messages), Execute(portal, answer)).replies;
      replies != [] && ErrorResponse !in replies
    ensures var results := Opened(messages + [Execute(portal, answer)]);
      && results != []
      && (results == Opened(messages) || results == Opened(messages) + [answer.content])
      && AreRows(Serve(After(messages), Execute(portal, answer)).replies, results[|results| - 1], answer.fetched)
  {
    hide ParsedQuery, BoundVariables, AreRows, Serve;
    var execute := Execute(portal, answer);
    var all := messages + [execute];
    assert all[..|messages|] == messages;
    ResultsAreAnswers(all);
    ExecuteIsFresh(messages, portal, answer);
  }
}
