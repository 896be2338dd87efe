/** What holds of every sequence of messages that a client can send. */
module ExchangeProofs {
  import opened Checkpoint
  import opened Exchange

  // Resources

  ghost predicate AllReleased(d: Driver) {
    && (forall i :: 0 <= i < |d.plans| ==> !d.plans[i].open)
    && (forall r :: 0 <= r < |d.rowSets| ==> !d.rowSets[r].open)
  }

  /** No row set was iterated over twice, and an open one not even once. */
  ghost predicate ScannedOnce(d: Driver) {
    forall r :: 0 <= r < |d.rowSets| ==> d.rowSets[r].scans <= 1 && (d.rowSets[r].open ==> d.rowSets[r].scans == 0)
  }

  /** The driver's open objects are those the prepared statement still names. */
  ghost predicate Owns(s: Session) {
    var p, d := s.prepared, s.driver;
    && (forall i :: 0 <= i < |d.plans| && d.plans[i].open ==> p.statement == Some(i))
    && (forall r :: 0 <= r < |d.rowSets| && d.rowSets[r].open ==> p.rows == Some(r))
    && (p.statement.Some? ==> !p.closed && p.query != "" && PlanOf(s, p.statement.value))
    && (p.rows.Some? ==> !p.closed && p.query != "" && RowsOfSession(s, p.rows.value))
    && ScannedOnce(d)
  }

  ghost predicate PlanOf(s: Session, i: nat) {
    i < |s.driver.plans| && s.driver.plans[i] == Plan(s.prepared.query, true)
  }

  /** The row set is the latest, and was opened for the current query with the current variables. */
  ghost predicate RowsOfSession(s: Session, r: nat) {
    && r + 1 == |s.driver.rowSets|
    && s.driver.rowSets[r].plan < |s.driver.plans|
    && s.driver.plans[s.driver.rowSets[r].plan].query == s.prepared.query
    && s.driver.rowSets[r].variables == s.prepared.variables
  }

  ghost predicate Sound(c: Connection) {
    match c
    case AtTop(driver) => AllReleased(driver) && ScannedOnce(driver)
    case Ended(driver, crashed) => AllReleased(driver) && ScannedOnce(driver) && !crashed
    case InExchange(x) =>
      if x.prepared.None? then x.failed && AllReleased(x.driver) && ScannedOnce(x.driver)
      else Owns(Session(x.prepared.value, x.driver))
  }

  lemma DropRowsKeeps(s: Session)
    requires Owns(s)
    ensures var t := DropRows(s);
      && Owns(t) && t.prepared == s.prepared.(rows := None)
      && (forall r :: 0 <= r < |t.driver.rowSets| ==> !t.driver.rowSets[r].open)
      && t.driver.plans == s.driver.plans && |t.driver.rowSets| == |s.driver.rowSets|
  {
  }

  lemma ReleaseKeeps(s: Session)
    requires Owns(s)
    ensures Owns(Release(s)) && AllReleased(Release(s).driver)
    ensures Release(s).prepared == s.prepared.(rows := None, statement := None, closed := true)
    ensures |Release(s).driver.plans| == |s.driver.plans| && |Release(s).driver.rowSets| == |s.driver.rowSets|
  {
    DropRowsKeeps(s);
  }

  lemma PrepareKeeps(s: Session, answer: Answer)
    requires Owns(s) && s.prepared.query != ""
    ensures Prepare(s, answer).Some? ==>
      var t := Prepare(s, answer).value;
      && Owns(t) && t.prepared == s.prepared.(statement := t.prepared.statement) && t.prepared.statement.Some?
      && t.driver.rowSets == s.driver.rowSets && !s.prepared.closed
      && |t.driver.plans| == |s.driver.plans| + if s.prepared.statement.None? then 1 else 0
  {
  }

  lemma OpenRowsKeeps(s: Session, answer: Answer)
    requires Owns(s) && s.prepared.statement.Some? && s.prepared.rows.None?
    ensures Owns(OpenRows(s, answer))
  {
  }

  lemma ReadOutKeeps(s: Session, answer: Answer)
    requires Owns(s) && s.prepared.rows.Some?
    ensures Owns(ReadOut(s, answer).session)
  {
  }

  lemma HandlersKeep(s: Session, m: Message)
    requires Owns(s)
    ensures m.Bind? ==> Owns(HandleBind(s, m.statement, m.portal, m.variables).session)
    ensures m.Describe? ==> Owns(HandleDescribe(s, m.objectType, m.name, m.answer).session)
    ensures m.Execute? ==> Owns(HandleExecute(s, m.portal, m.answer).session)
    ensures m.Close? ==> Owns(HandleClose(s, m.objectType, m.name))
  {
    hide Owns, Release, Prepare, OpenRows, ReadOut;
    DropRowsKeeps(s);
    match m
    case Bind(_, _, _) =>
      Rebound(DropRows(s));
    case Describe(_, _, answer) =>
      var t := DropRows(s);
      Rebound(t);
      var described := t.(prepared := t.prepared.(described := true));
      if described.prepared.query != "" {
        PrepareKeeps(described, answer);
        var planned := Prepare(described, answer);
        if planned.Some? {
          OpenRowsKeeps(planned.value, answer);
        }
      }
    case Execute(_, answer) =>
      if s.prepared.rows.Some? {
        ReadOutKeeps(s, answer);
      } else if s.prepared.query != "" {
        PrepareKeeps(s, answer);
        var planned := Prepare(s, answer);
        if planned.Some? {
          OpenRowsKeeps(planned.value, answer);
          OpenedRows(planned.value, answer);
          ReadOutKeeps(OpenRows(planned.value, answer), answer);
        }
      }
    case Close(_, _) =>
      ReleaseKeeps(s);
    case _ =>
  }

  lemma OpenedRows(s: Session, answer: Answer)
    requires s.prepared.statement.Some?
    ensures OpenRows(s, answer).prepared.rows.Some?
  {
  }

  /** Without open rows, the fields of Bind and Describe are free to change. */
  lemma Rebound(s: Session)
    requires Owns(s) && s.prepared.rows.None?
    ensures forall bound, variables, portal, described ::
      Owns(s.(prepared := s.prepared.(bound := bound, variables := variables, portal := portal, described := described)))
  {
  }

  lemma LeaveReleases(x: State)
    requires Sound(InExchange(x))
    ensures AllReleased(Leave(x).driver) && ScannedOnce(Leave(x).driver)
  {
    if x.prepared.Some? {
      ReleaseKeeps(Session(x.prepared.value, x.driver));
    }
  }

  lemma TurnKeepsSound(x: State, m: Message)
    requires Sound(InExchange(x))
    ensures Sound(AfterTurn(HandleMessage(x, m)).after)
  {
    hide Owns, Release, AllReleased, ScannedOnce, HandleBind, HandleDescribe, HandleExecute, HandleClose;
    LeaveReleases(x);
    if x.prepared.Some? {
      var s := Session(x.prepared.value, x.driver);
      HandlersKeep(s, m);
      DropRowsKeeps(s);
      var dropped := DropRows(s);
      LeaveReleases(x.(prepared := Some(dropped.prepared), driver := dropped.driver));
    }
  }

  /** However the client behaves, a message after a Parse error never meets the nil statement, and
    * whatever is open belongs to the current statement. */
  lemma {:induction false} EveryConnectionIsSound(messages: seq<Message>)
    ensures Sound(After(messages))
  {
    if messages != [] {
      var init, m := messages[..|messages| - 1], messages[|messages| - 1];
      EveryConnectionIsSound(init);
      var c := After(init);
      match c
      case InExchange(x) => TurnKeepsSound(x, m);
      case _ =>
    }
  }

  /** Whenever the conversation is between exchanges, or is cut off at any point of one, no statement
    * and no row set is left open in the driver. */
  lemma NothingLeaks(messages: seq<Message>)
    ensures AllReleased(HangUp(After(messages)))
    ensures !After(messages).InExchange? ==> AllReleased(After(messages).driver)
    ensures !(After(messages).Ended? && After(messages).crashed)
  {
    hide AllReleased, ScannedOnce, Owns, Leave;
    EveryConnectionIsSound(messages);
    var c := After(messages);
    if c.InExchange? {
      LeaveReleases(c.state);
    }
  }

  // Replies

  /** The Syncs that an exchange handles and the simple queries between exchanges. */
  function Prompts(messages: seq<Message>): nat {
    if messages == [] then 0
    else
      var c, m := After(messages[..|messages| - 1]), messages[|messages| - 1];
      Prompts(messages[..|messages| - 1]) + if (c.InExchange? && m.Sync?) || (c.AtTop? && m.Query?) then 1 else 0
  }

  /** What a handler can answer: one error and nothing else, or neither an error nor a prompt. */
  ghost predicate Answers(h: Handled) {
    h.replies.Some? ==> forall r :: r in h.replies.value ==> r !in {ErrorResponse, ReadyForQuery, ParseComplete}
  }

  lemma HandlersAnswer(s: Session, m: Message)
    ensures m.Bind? ==> Answers(HandleBind(s, m.statement, m.portal, m.variables))
    ensures m.Describe? ==> Answers(HandleDescribe(s, m.objectType, m.name, m.answer))
    ensures m.Execute? ==> Answers(HandleExecute(s, m.portal, m.answer))
  {
    hide Prepare, OpenRows, DropRows, Fetched;
  }

  lemma {:induction false} SimpleRepliesAnswer(statements: seq<StatementOutcome>)
    ensures SimpleReplies(statements).Some? ==>
      forall r :: r in SimpleReplies(statements).value ==> r.RowDescription? || r.DataRow? || r.CommandComplete?
  {
    if statements != [] {
      SimpleRepliesAnswer(statements[..|statements| - 1]);
    }
  }

  /** A turn answers with one error, and then the exchange has failed, or without any; a prompt is the
    * answer to Sync alone. */
  lemma TurnAnswers(x: State, m: Message)
    ensures var turn := HandleMessage(x, m);
      && (ErrorResponse in turn.replies ==> turn.replies == [ErrorResponse] && turn.after.failed && turn.control.Continues?)
      && (m.Sync? ==> turn.replies == [ReadyForQuery])
      && (!m.Sync? ==> ReadyForQuery !in turn.replies)
      && ParseComplete !in turn.replies
  {
    hide HandleBind, HandleDescribe, HandleExecute, HandleClose, Leave, DropRows;
    if x.prepared.Some? {
      HandlersAnswer(Session(x.prepared.value, x.driver), m);
    }
  }

  lemma ServeCountsPrompts(c: Connection, m: Message)
    ensures multiset(Serve(c, m).replies)[ReadyForQuery] ==
      if (c.InExchange? && m.Sync?) || (c.AtTop? && m.Query?) then 1 else 0
  {
    hide HandleMessage, SimpleReplies;
    match c
    case InExchange(x) =>
      TurnAnswers(x, m);
    case AtTop(_) =>
      if m.Query? {
        SimpleRepliesAnswer(m.statements);
        var replies := HandleSimpleQuery(m.parseFails, m.statements);
        var body := if replies.Some? then replies.value else [ErrorResponse];
        assert ReadyForQuery !in body;
        assert multiset(body + [ReadyForQuery]) == multiset(body) + multiset([ReadyForQuery]);
      }
    case Ended(_, _) =>
  }

  /** The client can count: one ReadyForQuery for every handled Sync and every simple query. */
  lemma {:induction false} ReadyForQueryIsCounted(messages: seq<Message>)
    ensures multiset(AllReplies(messages))[ReadyForQuery] == Prompts(messages)
  {
    hide Serve, After;
    if messages != [] {
      var init := messages[..|messages| - 1];
      ReadyForQueryIsCounted(init);
      ServeCountsPrompts(After(init), messages[|messages| - 1]);
      assert multiset(AllReplies(init) + RepliesTo(messages)) == multiset(AllReplies(init)) + multiset(RepliesTo(messages));
    }
  }

  lemma AfterNext(messages: seq<Message>, k: nat)
    requires k < |messages|
    ensures messages[..k + 1] != []
    ensures After(messages[..k + 1]) == Serve(After(messages[..k]), messages[k]).after
    ensures RepliesTo(messages[..k + 1]) == Serve(After(messages[..k]), messages[k]).replies
  {
    assert messages[..k + 1][..k] == messages[..k];
  }

  /** An error in an exchange is answered by one ErrorResponse alone. Nothing else is answered, or done,
    * until the next Sync, which answers ReadyForQuery and ends the exchange. */
  lemma {:induction false} SilenceUntilSync(messages: seq<Message>, i: nat, j: nat)
    requires i < j <= |messages|
    requires After(messages[..i + 1]).InExchange? && ErrorResponse in RepliesTo(messages[..i + 1])
    requires forall k :: i < k < j ==> !messages[k].Sync? && !messages[k].Terminate?
    ensures RepliesTo(messages[..i + 1]) == [ErrorResponse]
    ensures After(messages[..j]) == After(messages[..i + 1]) && After(messages[..j]).state.failed
    ensures forall k :: i + 1 < k <= j ==> RepliesTo(messages[..k]) == []
    ensures Serve(After(messages[..j]), Sync).after.AtTop? && Serve(After(messages[..j]), Sync).replies == [ReadyForQuery]
    decreases j
  {
    hide Serve, After, RepliesTo;
    AfterNext(messages, j - 1);
    if j == i + 1 {
      FirstError(After(messages[..i]), messages[i]);
    } else {
      SilenceUntilSync(messages, i, j - 1);
      Skipped(After(messages[..j - 1]).state, messages[j - 1]);
    }
    FailedUntilSync(After(messages[..j]).state);
  }

  lemma FirstError(c: Connection, m: Message)
    requires Serve(c, m).after.InExchange? && ErrorResponse in Serve(c, m).replies
    ensures Serve(c, m).replies == [ErrorResponse] && Serve(c, m).after.state.failed
  {
    hide HandleMessage;
    if c.InExchange? {
      TurnAnswers(c.state, m);
    }
  }

  lemma Skipped(x: State, m: Message)
    requires x.failed && !m.Sync? && !m.Terminate?
    ensures Serve(InExchange(x), m) == Served(InExchange(x), [])
  {
  }

  lemma FailedUntilSync(x: State)
    requires x.failed
    ensures Serve(InExchange(x), Sync).after.AtTop? && Serve(InExchange(x), Sync).replies == [ReadyForQuery]
  {
  }

  // Planning

  function DriverOf(c: Connection): Driver {
    match c
    case AtTop(driver) => driver
    case Ended(driver, _) => driver
    case InExchange(x) => x.driver
  }

  /** Messages i to j belong to one exchange, which the Parse at i began. */
  ghost predicate OneExchange(messages: seq<Message>, i: nat, j: nat) {
    && i < j <= |messages|
    && After(messages[..i]).AtTop? && messages[i].Parse?
    && forall k :: i < k <= j ==> After(messages[..k]).InExchange?
  }

  /** How often the statement can still be planned. */
  function PlansLeft(x: State): nat {
    if x.prepared.Some? && !x.prepared.value.closed && x.prepared.value.statement.None? then 1 else 0
  }

  function PlansOfSession(s: Session): nat {
    |s.driver.plans| + if !s.prepared.closed && s.prepared.statement.None? then 1 else 0
  }

  lemma HandlersPlanOnce(s: Session, m: Message)
    ensures m.Bind? ==> PlansOfSession(HandleBind(s, m.statement, m.portal, m.variables).session) <= PlansOfSession(s)
    ensures m.Describe? ==> PlansOfSession(HandleDescribe(s, m.objectType, m.name, m.answer).session) <= PlansOfSession(s)
    ensures m.Execute? ==> PlansOfSession(HandleExecute(s, m.portal, m.answer).session) <= PlansOfSession(s)
    ensures m.Close? ==> PlansOfSession(HandleClose(s, m.objectType, m.name)) <= PlansOfSession(s)
  {
    hide DataRows, Fetched;
  }

  /** A Parse is planned successfully at most once, however often it is described, bound and executed. */
  lemma {:induction false} PlannedAtMostOnce(messages: seq<Message>, i: nat, j: nat)
    requires OneExchange(messages, i, j)
    ensures |After(messages[..j]).state.driver.plans| + PlansLeft(After(messages[..j]).state)
         <= |DriverOf(After(messages[..i])).plans| + 1
    decreases j
  {
    hide HandleMessage, Serve, After;
    AfterNext(messages, j - 1);
    if j == i + 1 {
      ParsePlansNothing(After(messages[..i]), messages[i]);
    } else {
      PlannedAtMostOnce(messages, i, j - 1);
      InTheMiddle(messages, i, j);
      TurnPlansOnce(After(messages[..j - 1]).state, messages[j - 1]);
    }
  }

  lemma ParsePlansNothing(c: Connection, m: Message)
    requires c.AtTop? && m.Parse?
    ensures Serve(c, m).after.InExchange? && Serve(c, m).after.state.driver == c.driver
  {
  }

  lemma TurnPlansOnce(x: State, m: Message)
    requires HandleMessage(x, m).control.Continues?
    ensures var y := HandleMessage(x, m).after;
      |y.driver.plans| + PlansLeft(y) <= |x.driver.plans| + PlansLeft(x)
  {
    hide HandleBind, HandleDescribe, HandleExecute, HandleClose;
    if x.prepared.Some? {
      HandlersPlanOnce(Session(x.prepared.value, x.driver), m);
    }
  }

  /** A statement that the client closed is not planned again. */
  lemma {:induction false} ClosedIsNotReplanned(messages: seq<Message>, i: nat, k: nat, j: nat)
    requires OneExchange(messages, i, j) && i < k <= j
    requires var x := After(messages[..k]).state; x.prepared.Some? && x.prepared.value.closed
    ensures var x := After(messages[..j]).state; x.prepared.Some? && x.prepared.value.closed
    ensures |After(messages[..j]).state.driver.plans| == |After(messages[..k]).state.driver.plans|
    decreases j
  {
    hide HandleMessage, Serve, After;
    if k < j {
      ClosedIsNotReplanned(messages, i, k, j - 1);
      InTheMiddle(messages, i, j);
      TurnKeepsClosed(After(messages[..j - 1]).state, messages[j - 1]);
    }
  }

  lemma InTheMiddle(messages: seq<Message>, i: nat, j: nat)
    requires OneExchange(messages, i, j) && i + 1 < j
    ensures After(messages[..j - 1]).InExchange? && After(messages[..j]).InExchange?
    ensures HandleMessage(After(messages[..j - 1]).state, messages[j - 1]).control.Continues?
    ensures After(messages[..j]).state == HandleMessage(After(messages[..j - 1]).state, messages[j - 1]).after
  {
    hide HandleMessage, After;
    AfterNext(messages, j - 1);
  }

  lemma TurnKeepsClosed(x: State, m: Message)
    requires HandleMessage(x, m).control.Continues?
    requires x.prepared.Some? && x.prepared.value.closed
    ensures var y := HandleMessage(x, m).after;
      y.prepared.Some? && y.prepared.value.closed && |y.driver.plans| == |x.driver.plans|
  {
    hide DataRows, Fetched;
  }

  // Results

  /** The query of the last successful Parse. */
  function ParsedQuery(messages: seq<Message>): string {
    if messages == [] then ""
    else
      var m := messages[|messages| - 1];
      if m.Parse? && RepliesTo(messages) == [ParseComplete] then (if m.outcome.OneStatement? then m.outcome.query else "")
      else ParsedQuery(messages[..|messages| - 1])
  }

  /** The variables of the last successful Bind since then. */
  function BoundVariables(messages: seq<Message>): seq<Value> {
    if messages == [] then []
    else
      var m := messages[|messages| - 1];
      if m.Parse? && RepliesTo(messages) == [ParseComplete] then []
      else if m.Bind? && m.variables.Some? && RepliesTo(messages) == [BindComplete] then m.variables.value
      else BoundVariables(messages[..|messages| - 1])
  }

  predicate SameBinding(s: Session, t: Session) {
    s.prepared.query == t.prepared.query && s.prepared.variables == t.prepared.variables
  }

  lemma HandlersKeepBinding(s: Session, m: Message)
    ensures m.Bind? ==>
      var h := HandleBind(s, m.statement, m.portal, m.variables);
      && h.session.prepared.query == s.prepared.query
      && h.replies in {None, Some([BindComplete])}
      && (h.replies.Some? ==> m.variables == Some(h.session.prepared.variables))
      && (h.replies.None? ==> SameBinding(s, h.session))
    ensures m.Describe? ==> SameBinding(s, HandleDescribe(s, m.objectType, m.name, m.answer).session)
    ensures m.Execute? ==> SameBinding(s, HandleExecute(s, m.portal, m.answer).session)
    ensures m.Close? ==> SameBinding(s, HandleClose(s, m.objectType, m.name))
  {
    hide DataRows, Fetched;
  }

  ghost predicate HasBinding(c: Connection, query: string, variables: seq<Value>) {
    c.InExchange? && c.state.prepared.Some? ==>
      c.state.prepared.value.query == query && c.state.prepared.value.variables == variables
  }

  lemma TurnKeepsBinding(x: State, m: Message, query: string, variables: seq<Value>)
    requires HasBinding(InExchange(x), query, variables)
    ensures var served := Serve(InExchange(x), m);
      && served.replies != [ParseComplete]
      && HasBinding(served.after, query,
                    if m.Bind? && m.variables.Some? && served.replies == [BindComplete] then m.variables.value else variables)
  {
    hide HandleBind, HandleDescribe, HandleExecute, HandleClose, Release;
    TurnAnswers(x, m);
    if x.prepared.Some? {
      HandlersKeepBinding(Session(x.prepared.value, x.driver), m);
    }
  }

  lemma ParseBinds(c: Connection, m: Message)
    requires c.AtTop?
    ensures var served := Serve(c, m);
      && (m.Parse? && served.replies == [ParseComplete] ==>
            HasBinding(served.after, if m.outcome.OneStatement? then m.outcome.query else "", []))
      && (!(m.Parse? && served.replies == [ParseComplete]) ==> forall query, variables :: HasBinding(served.after, query, variables))
  {
    hide HandleSimpleQuery;
  }

  /** The prepared statement carries the latest query and variables that the client was told are accepted. */
  lemma {:induction false} BindingIsLatest(messages: seq<Message>)
    ensures HasBinding(After(messages), ParsedQuery(messages), BoundVariables(messages))
  {
    hide Serve, HasBinding;
    if messages == [] {
      NoBinding(AtTop(IDLE_DRIVER), "", []);
    } else {
      var init, m := messages[..|messages| - 1], messages[|messages| - 1];
      BindingIsLatest(init);
      match After(init)
      case InExchange(x) => TurnKeepsBinding(x, m, ParsedQuery(init), BoundVariables(init));
      case AtTop(_) => ParseBinds(After(init), m);
      case Ended(driver, crashed) =>
        EndedServesNothing(After(init), m);
        NoBinding(After(messages), ParsedQuery(messages), BoundVariables(messages));
    }
  }

  lemma NoBinding(c: Connection, query: string, variables: seq<Value>)
    requires !c.InExchange?
    ensures HasBinding(c, query, variables)
  {
  }

  lemma EndedServesNothing(c: Connection, m: Message)
    requires c.Ended?
    ensures Serve(c, m) == Served(c, [])
  {
  }

  /** The replies are one scan, never done before, of a row set of this query under these variables. */
  ghost predicate FreshResult(
    before: Driver, after: Driver, r: nat, query: string, variables: seq<Value>, answer: Answer, replies: seq<Reply>)
  {
    && r + 1 == |after.rowSets| && after.rowSets[r].plan < |after.plans|
    && after.plans[after.rowSets[r].plan].query == query
    && after.rowSets[r].variables == variables
    && after.rowSets[r].scans == 1 && !after.rowSets[r].open
    && (if r < |before.rowSets| then
          before.rowSets[r].open && before.rowSets[r].scans == 0 && after.rowSets[r].content == before.rowSets[r].content
        else after.rowSets[r].content == answer.content)
    && AreRows(replies, after.rowSets[r].content, answer.fetched)
  }

  /** The rows of the result that the driver came to, in order: all of them if and only if it did not break off. */
  ghost predicate AreRows(replies: seq<Reply>, content: seq<Tuple>, fetched: nat) {
    && |replies| > 0 && replies[|replies| - 1] == CommandComplete
    && |replies| - 1 == (if fetched < |content| then fetched else |content|)
    && forall i :: 0 <= i < |replies| - 1 ==> replies[i] == DataRow(content[i])
  }

  lemma ReadOutIsFresh(s: Session, answer: Answer)
    requires Owns(s) && s.prepared.rows.Some? && ReadOut(s, answer).replies.Some?
    ensures FreshResult(s.driver, ReadOut(s, answer).session.driver, s.prepared.rows.value, s.prepared.query,
                        s.prepared.variables, answer, ReadOut(s, answer).replies.value)
  {
  }

  lemma HandledIsFresh(s: Session, portal: string, answer: Answer)
    requires Owns(s) && HandleExecute(s, portal, answer).replies.Some?
    ensures var h := HandleExecute(s, portal, answer);
      if s.prepared.query == "" then h.replies.value == [EmptyQueryResponse] && h.session == s
      else exists r: nat ::
        FreshResult(s.driver, h.session.driver, r, s.prepared.query, s.prepared.variables, answer, h.replies.value)
  {
    hide Owns, ReadOut, Prepare, OpenRows, FreshResult;
    if s.prepared.query != "" {
      if s.prepared.rows.Some? {
        ReadOutIsFresh(s, answer);
      } else {
        PrepareKeeps(s, answer);
        var planned := Prepare(s, answer).value;
        OpenRowsKeeps(planned, answer);
        OpenedRows(planned, answer);
        var queried := OpenRows(planned, answer);
        ReadOutIsFresh(queried, answer);
        OpenedIsNew(s, planned, answer, queried.prepared.rows.value, ReadOut(queried, answer).session.driver,
                    ReadOut(queried, answer).replies.value);
      }
    }
  }

  lemma OpenedIsNew(s: Session, planned: Session, answer: Answer, r: nat, after: Driver, replies: seq<Reply>)
    requires planned.prepared.statement.Some?
    requires planned.prepared == s.prepared.(statement := planned.prepared.statement)
    requires planned.driver.rowSets == s.driver.rowSets
    requires var queried := OpenRows(planned, answer);
      && queried.prepared.rows == Some(r)
      && FreshResult(queried.driver, after, r, queried.prepared.query, queried.prepared.variables, answer, replies)
    ensures FreshResult(s.driver, after, r, s.prepared.query, s.prepared.variables, answer, replies)
  {
    hide DataRows, Fetched;
  }

  /** A successful Execute answers with the rows of the latest query under the variables of the latest
    * Bind, from a row set that nothing was read from before; and with all of them, if and only if the
    * driver did not break off. */
  lemma ExecuteIsFresh(messages: seq<Message>, portal: string, answer: Answer)
    requires After(messages).InExchange?
    requires var replies := Serve(After(messages), Execute(portal, answer)).replies;
      replies != [] && ErrorResponse !in replies
    ensures var served := Serve(After(messages), Execute(portal, answer));
      && served.after.InExchange?
      && if ParsedQuery(messages) == "" then served.replies == [EmptyQueryResponse]
         else exists r: nat ::
           FreshResult(After(messages).state.driver, served.after.state.driver, r, ParsedQuery(messages),
                       BoundVariables(messages), answer, served.replies)
  {
    hide After, ParsedQuery, BoundVariables, FreshResult, HandleExecute, Owns;
    EveryConnectionIsSound(messages);
    BindingIsLatest(messages);
    var x := After(messages).state;
    HandledIsFresh(Session(x.prepared.value, x.driver), portal, answer);
  }

  /** No row set survives a Bind, a Describe, the Close of its portal or statement, or a Sync. */
  lemma RowsDoNotSurvive(messages: seq<Message>, m: Message, r: nat)
    requires After(messages).InExchange? && !After(messages).state.failed && r < |After(messages).state.driver.rowSets|
    requires var p := After(messages).state.prepared;
      || m.Bind? || m.Describe? || m.Sync?
      || (m.Close? && p.Some? && m.name == if m.objectType.Statement? then p.value.name else p.value.portal)
    ensures var after := DriverOf(Serve(After(messages), m).after);
      r < |after.rowSets| && !after.rowSets[r].open
  {
    hide After, DropRows, Owns, Prepare;
    EveryConnectionIsSound(messages);
    var x := After(messages).state;
    var s := Session(x.prepared.value, x.driver);
    DropRowsKeeps(s);
    var dropped := DropRows(s);
    ReleaseKeeps(s);
    ReleaseKeeps(dropped);
    PrepareKeepsRows(dropped.(prepared := dropped.prepared.(described := true)), m);
  }

  lemma PrepareKeepsRows(s: Session, m: Message)
    ensures m.Describe? && Prepare(s, m.answer).Some? ==>
      Prepare(s, m.answer).value.driver.rowSets == s.driver.rowSets && Prepare(s, m.answer).value.prepared.statement.Some?
  {
  }

  // When an exchange ends

  /** The current exchange has answered an error. */
  function Erred(messages: seq<Message>): bool {
    if messages == [] then false
    else
      var m := messages[|messages| - 1];
      if After(messages).InExchange? && ErrorResponse in RepliesTo(messages) then true
      else if m.Parse? && RepliesTo(messages) == [ParseComplete] then false
      else Erred(messages[..|messages| - 1])
  }

  /** It has answered a Bind. */
  function WasBound(messages: seq<Message>): bool {
    if messages == [] then false
    else
      var m := messages[|messages| - 1];
      if m.Parse? && RepliesTo(messages) == [ParseComplete] then false
      else (m.Bind? && RepliesTo(messages) == [BindComplete]) || WasBound(messages[..|messages| - 1])
  }

  /** It has handled a Describe. */
  function WasDescribed(messages: seq<Message>): bool {
    if messages == [] then false
    else
      var m, init := messages[|messages| - 1], messages[..|messages| - 1];
      if m.Parse? && RepliesTo(messages) == [ParseComplete] then false
      else (m.Describe? && After(init).InExchange? && !Erred(init)) || WasDescribed(init)
  }

  ghost predicate HasHistory(c: Connection, erred: bool, bound: bool, described: bool) {
    c.InExchange? ==>
      && c.state.failed == erred
      && (c.state.prepared.Some? && !erred ==> c.state.prepared.value.bound == bound && c.state.prepared.value.described == described)
  }

  lemma HandlersKeepHistory(s: Session, m: Message)
    ensures m.Bind? ==>
      var h := HandleBind(s, m.statement, m.portal, m.variables);
      h.replies.Some? ==>
        && h.replies == Some([BindComplete])
        && h.session.prepared.bound && h.session.prepared.described == s.prepared.described
    ensures m.Describe? ==>
      var h := HandleDescribe(s, m.objectType, m.name, m.answer);
      h.replies.Some? ==>
        && h.session.prepared.described && h.session.prepared.bound == s.prepared.bound
        && (h.replies.value == [NoData] <==> s.prepared.query == "" || !s.prepared.bound)
    ensures m.Execute? ==>
      var h := HandleExecute(s, m.portal, m.answer);
      h.session.prepared.described == s.prepared.described && h.session.prepared.bound == s.prepared.bound
    ensures m.Close? ==>
      var t := HandleClose(s, m.objectType, m.name);
      t.prepared.described == s.prepared.described && t.prepared.bound == s.prepared.bound
  {
    hide DataRows, Fetched;
  }

  lemma TurnKeepsHistory(x: State, m: Message, erred: bool, bound: bool, described: bool)
    requires HasHistory(InExchange(x), erred, bound, described)
    ensures var served := Serve(InExchange(x), m);
      HasHistory(served.after,
                 (served.after.InExchange? && ErrorResponse in served.replies) || erred,
                 (m.Bind? && served.replies == [BindComplete]) || bound,
                 (m.Describe? && !erred) || described)
  {
    hide HandleBind, HandleDescribe, HandleExecute, HandleClose, Release;
    TurnAnswers(x, m);
    if x.prepared.Some? {
      var s := Session(x.prepared.value, x.driver);
      HandlersKeepHistory(s, m);
      HandlersAnswer(s, m);
    }
  }

  lemma ParseStartsHistory(c: Connection, m: Message)
    requires !c.InExchange?
    ensures var served := Serve(c, m);
      && (m.Parse? && served.replies == [ParseComplete] ==> HasHistory(served.after, false, false, false))
      && (!(m.Parse? && served.replies == [ParseComplete]) && served.after.InExchange? ==>
            ErrorResponse in served.replies && forall bound, described :: HasHistory(served.after, true, bound, described))
  {
    hide HandleSimpleQuery;
  }

  lemma {:induction false} HistoryIsKept(messages: seq<Message>)
    ensures HasHistory(After(messages), Erred(messages), WasBound(messages), WasDescribed(messages))
  {
    hide Serve, HasHistory;
    if messages == [] {
      NoHistory(AtTop(IDLE_DRIVER), false, false, false);
    } else {
      var init, m := messages[..|messages| - 1], messages[|messages| - 1];
      HistoryIsKept(init);
      if After(init).InExchange? {
        TurnKeepsHistory(After(init).state, m, Erred(init), WasBound(init), WasDescribed(init));
        TurnKeepsBinding(After(init).state, m, ParsedQuery(init), BoundVariables(init)) by {
          BindingIsLatest(init);
        }
      } else {
        ParseStartsHistory(After(init), m);
        if !After(messages).InExchange? {
          NoHistory(After(messages), Erred(messages), WasBound(messages), WasDescribed(messages));
        }
      }
    }
  }

  lemma NoHistory(c: Connection, erred: bool, bound: bool, described: bool)
    requires !c.InExchange?
    ensures HasHistory(c, erred, bound, described)
  {
  }

  /** A Sync ends the exchange exactly when it answered an error, a Bind or a Describe before. */
  lemma SyncEndsExchangeIff(messages: seq<Message>)
    requires After(messages).InExchange?
    ensures Serve(After(messages), Sync).replies == [ReadyForQuery]
    ensures if Erred(messages) || WasBound(messages) || WasDescribed(messages) then Serve(After(messages), Sync).after.AtTop?
            else Serve(After(messages), Sync).after.InExchange?
  {
    hide After, Erred, WasBound, WasDescribed;
    HistoryIsKept(messages);
    EveryConnectionIsSound(messages);
  }

  /** A Describe that succeeds has no data to describe exactly when the query is empty or was not bound. */
  lemma DescribeHasNoDataIff(messages: seq<Message>, objectType: ObjectType, name: string, answer: Answer)
    requires After(messages).InExchange? && !Erred(messages)
    requires ErrorResponse !in Serve(After(messages), Describe(objectType, name, answer)).replies
    ensures Serve(After(messages), Describe(objectType, name, answer)).replies == [NoData]
      <==> ParsedQuery(messages) == "" || !WasBound(messages)
  {
    hide After, Erred, WasBound, WasDescribed, ParsedQuery, BoundVariables, HandleDescribe, Owns;
    HistoryIsKept(messages);
    BindingIsLatest(messages);
    EveryConnectionIsSound(messages);
    var x := After(messages).state;
    HandlersKeepHistory(Session(x.prepared.value, x.driver), Describe(objectType, name, answer));
  }

  // What each message is answered with

  ghost predicate IsResult(replies: seq<Reply>) {
    && replies != [] && replies[|replies| - 1] == CommandComplete
    && forall i :: 0 <= i < |replies| - 1 ==> replies[i].DataRow?
  }

  ghost predicate Fits(m: Message, replies: seq<Reply>) {
    match m
    case Bind(_, _, _) => replies == [BindComplete]
    case Describe(_, _, _) => replies in {[NoData], [RowDescription], []}
    case Execute(_, _) => replies == [EmptyQueryResponse] || IsResult(replies)
    case Close(_, _) => replies == [CloseComplete]
    case Sync => replies == [ReadyForQuery]
    case _ => replies == []
  }

  lemma HandlersFit(s: Session, m: Message)
    ensures m.Bind? ==>
      var h := HandleBind(s, m.statement, m.portal, m.variables); h.replies.Some? ==> Fits(m, h.replies.value)
    ensures m.Describe? ==>
      var h := HandleDescribe(s, m.objectType, m.name, m.answer); h.replies.Some? ==> Fits(m, h.replies.value)
    ensures m.Execute? ==>
      var h := HandleExecute(s, m.portal, m.answer); h.replies.Some? ==> Fits(m, h.replies.value)
  {
    hide Prepare, OpenRows, DropRows, Fetched;
  }

  /** In an exchange without a pending error every message gets the replies the protocol has for it, or one error. */
  lemma RepliesFitMessages(messages: seq<Message>, m: Message)
    requires After(messages).InExchange? && !After(messages).state.failed
    ensures var replies := Serve(After(messages), m).replies; replies == [ErrorResponse] || Fits(m, replies)
  {
    hide After, Owns, HandleBind, HandleDescribe, HandleExecute, HandleClose, Leave, DropResult;
    EveryConnectionIsSound(messages);
    var x := After(messages).state;
    HandlersFit(Session(x.prepared.value, x.driver), m);
  }

  /** Closing a portal keeps the statement: it can be bound and executed again. */
  lemma StatementOutlivesPortal(messages: seq<Message>, closed: string, portal: string, variables: seq<Value>, answer: Answer)
    requires After(messages).InExchange? && !After(messages).state.failed
    requires var p := After(messages).state.prepared; p.Some? && !p.value.closed
    requires !answer.planFails && !answer.queryFails && !answer.dataFails
    ensures var bind := Bind(After(messages).state.prepared.value.name, portal, Some(variables));
      var c := Serve(Serve(After(messages), Close(Portal, closed)).after, bind).after;
      var replies := Serve(c, Execute(portal, answer)).replies;
      replies == [EmptyQueryResponse] || IsResult(replies)
  {
    hide After, Owns, DropRows, Prepare, OpenRows, ReadOut;
    EveryConnectionIsSound(messages);
    var x := After(messages).state;
    var s := Session(x.prepared.value, x.driver);
    DropRowsKeeps(s);
    var t := HandleClose(s, Portal, closed);
    DropRowsKeeps(t);
    var u := HandleBind(t, s.prepared.name, portal, Some(variables)).session;
    Reexecutes(u, portal, answer);
  }

  lemma Reexecutes(s: Session, portal: string, answer: Answer)
    requires !s.prepared.closed && s.prepared.rows.None? && s.prepared.portal == portal
    requires !answer.planFails && !answer.queryFails && !answer.dataFails
    ensures var replies := HandleExecute(s, portal, answer).replies;
      replies.Some? && (replies.value == [EmptyQueryResponse] || IsResult(replies.value))
  {
    hide Fetched;
  }

  /** A closed statement can be bound, but not executed any more. */
  lemma ClosedStatementIsNotExecuted(messages: seq<Message>, portal: string, variables: seq<Value>, answer: Answer)
    requires After(messages).InExchange? && !After(messages).state.failed && After(messages).state.prepared.Some?
    requires ParsedQuery(messages) != ""
    ensures var name := After(messages).state.prepared.value.name;
      var c := Serve(Serve(After(messages), Close(Statement, name)).after, Bind(name, portal, Some(variables)));
      c.replies == [BindComplete] && Serve(c.after, Execute(portal, answer)).replies == [ErrorResponse]
  {
    hide After, Owns, DropRows, ParsedQuery, BoundVariables, OpenRows, ReadOut, Release;
    EveryConnectionIsSound(messages);
    BindingIsLatest(messages);
    var x := After(messages).state;
    var s := Session(x.prepared.value, x.driver);
    ReleaseKeeps(s);
    DropRowsKeeps(Release(s));
  }

  /** The driver breaks off after the first of two rows: the client is told that the command is complete. */
  lemma TruncatedResultIsAnswered(first: Tuple, second: Tuple)
    ensures var messages := [Parse("", OneStatement("SELECT")), Bind("", "", Some([]))];
      var answer := Answer(false, false, [first, second], false, true, false, 1);
      && After(messages).InExchange?
      && Serve(After(messages), Execute("", answer)).replies == [DataRow(first), CommandComplete]
      && ParsedQuery(messages) == "SELECT"
  {
    hide Release;
    var parse, bind := Parse("", OneStatement("SELECT")), Bind("", "", Some([]));
    assert [parse][..0] == [] && [parse, bind][..1] == [parse];
    var p := Prepared("", "SELECT", false, [], "", false, None, None, false);
    assert Serve(AtTop(IDLE_DRIVER), parse) == Served(InExchange(State(Some(p), false, IDLE_DRIVER)), [ParseComplete]);
    assert After([parse][..0]) == AtTop(IDLE_DRIVER);
    assert After([parse]) == InExchange(State(Some(p), false, IDLE_DRIVER)) && RepliesTo([parse]) == [ParseComplete];
    assert After([parse, bind]) == InExchange(State(Some(p.(bound := true)), false, IDLE_DRIVER));
    assert ParsedQuery([parse]) == "SELECT";
    var answer := Answer(false, false, [first, second], false, true, false, 1);
    assert Fetched([first, second], answer) == [first];
    assert DataRows([first]) == [DataRow(first)];
  }
}
