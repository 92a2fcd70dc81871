// The query pipeline end to end: SQL text in, rows out, with the server's part
// between the package and the batches.

module Client {
  import opened Common
  import opened Catalog
  import opened Ast
  import opened PrimeField
  import opened Package
  import opened Parser
  import opened Grammar
  import opened Semantic
  import opened Planner
  import opened QueryEncryption
  import opened Validator
  import opened Plain
  import opened Execution
  import opened Decoder
  import opened SortLimit
  import opened WellTyped
  import opened Pipeline
  import opened JoinExecution
  import opened JoinPlain
  import opened JoinPipeline
  import opened Transport

  /** Every table of the catalog has been ingested. */
  predicate Ingested(tables: TableMap, storage: Storage) { forall t :: t in tables ==> t in storage }

  /** What the server answers with: the batches of a package it accepts. */
  ghost predicate Served(p: OddPrime, pkg: QueryPackage, tables: TableMap, storage: Storage, paramSetId: string,
                         stack: nat, batches: seq<ResultBatch>)
    requires Ingested(tables, storage)
  {
    && PackageAccepted(pkg, tables, paramSetId, stack) && FilterOf(pkg, stack).Ok?
    && var filter := FilterOf(pkg, stack).value;
    if pkg.hasJoin then
      && pkg.joinedTableName in storage && JoinQualified(pkg)
      && var lefts, rights := storage[pkg.tableName], storage[pkg.joinedTableName];
      ArePairBatches(p, pkg, tables, filter, RightKey(pkg), Pairs(lefts, rights, |lefts|), batches)
    else AreBatches(p, tables[pkg.tableName], pkg, filter, storage[pkg.tableName], batches)
  }

  /** Whether the server can execute a package it accepts. */
  ghost predicate Servable(pkg: QueryPackage, tables: TableMap, storage: Storage, paramSetId: string, stack: nat)
    requires Ingested(tables, storage)
  {
    && PackageAccepted(pkg, tables, paramSetId, stack) && FilterOf(pkg, stack).Ok?
    && var filter := FilterOf(pkg, stack).value;
    if pkg.hasJoin then
      && pkg.joinedTableName in storage && JoinQualified(pkg)
      && var lefts, rights := storage[pkg.tableName], storage[pkg.joinedTableName];
      && LeftsFine(pkg, tables, filter, LeftKey(pkg), lefts)
      && PairsFine(pkg, tables, filter, RightKey(pkg), Pairs(lefts, rights, |lefts|))
    else
      var schema := tables[pkg.tableName];
      && AllKnown(schema, pkg.scanColumns) && AllKnown(schema, pkg.projectColumns)
      && AllExecutable(schema, pkg, filter, storage[pkg.tableName])
  }

  /** The server's handler: validate, then execute. */
  method HandleQuery(p: OddPrime, pkg: QueryPackage, tables: TableMap, storage: Storage, paramSetId: string, stack: nat)
    returns (r: Result<seq<ResultBatch>>)
    requires Ingested(tables, storage)
    ensures r.Ok? <==> Servable(pkg, tables, storage, paramSetId, stack)
    ensures r.Ok? ==> Served(p, pkg, tables, storage, paramSetId, stack, r.value)
    ensures !PackageAccepted(pkg, tables, paramSetId, stack) ==> r == Err(ValidationError)
  {
    var ok := Validate(pkg, tables, paramSetId, stack);
    if !ok {
      return Err(ValidationError);
    }
    if pkg.hasJoin {
      if pkg.joinedTableName !in storage {
        return Err(TableNotFound);
      }
      r := ExecuteJoin(p, pkg, tables, storage, stack);
    } else {
      r := ExecuteTable(p, pkg, tables, storage, stack);
    }
  }

  /** What the client makes of the received batches. */
  function Finished(batches: seq<ResultBatch>, stmt: SelectStatement): Result<seq<ResultRow>> {
    var decoded := DecodeFirst(batches, |batches|);
    if decoded.Err? then decoded else Ok(SortAndLimit(decoded.value, stmt.orderBy, stmt.limitCount))
  }

  /** Decoding all batches, then ORDER BY and LIMIT. */
  method Finish(batches: seq<ResultBatch>, stmt: SelectStatement) returns (r: Result<seq<ResultRow>>)
    ensures r == Finished(batches, stmt)
  {
    var rows := CollectRows(batches);
    if rows.Err? {
      return rows;
    }
    var results := new ResultSet(rows.value);
    results.ApplySortAndLimit(stmt.orderBy, stmt.limitCount);
    r := Ok(results.rows);
  }

  /** Analyze, plan and encrypt. */
  method Prepare(p: OddPrime, slotCount: nat, stmt: SelectStatement, tables: TableMap, paramSetId: string)
    returns (r: Result<QueryPackage>)
    ensures r.Ok? <==> Preparable(stmt, tables)
    ensures r.Ok? ==> StatementAccepted(tables, stmt)
    ensures r.Ok? ==> r.value == PackageFor(p, slotCount, stmt, PlanFor(tables, stmt), tables, paramSetId)
  {
    var schema :- Analyze(tables, stmt);
    if stmt.joins != [] {
      assert JoinAccepted(AllScopes(tables, stmt), stmt.joins[0].condition);
    }
    var logical := LogicalPlan(stmt, schema);
    var plan := PhysicalPlanOf(logical.value);
    r := EncryptWithCatalog(p, slotCount, stmt, plan.value, tables, paramSetId);
  }

  /** Planning an accepted statement never fails. */
  ghost predicate Preparable(stmt: SelectStatement, tables: TableMap) {
    StatementAccepted(tables, stmt) && Plannable(stmt) && Encryptable(stmt, PlanFor(tables, stmt), tables)
  }

  lemma TableQueryAnswered(p: OddPrime, slotCount: nat, tables: TableMap, storage: Storage, stmt: SelectStatement,
                           rowss: seq<seq<Row>>, paramSetId: string, stack: nat, batches: seq<ResultBatch>)
    requires Ingested(tables, storage) && QueryMeant(p, slotCount, tables, storage, stmt, rowss, stack)
    ensures Preparable(stmt, tables)
    ensures
      var pkg := PackageFor(p, slotCount, stmt, PlanFor(tables, stmt), tables, paramSetId);
      && Servable(pkg, tables, storage, paramSetId, stack)
      && (Served(p, pkg, tables, storage, paramSetId, stack, batches) ==>
            Finished(batches, stmt) == Ok(PlainResult(stmt, tables[stmt.tableName], Flatten(rowss, |rowss|))))
  {
    QueryCorrect(p, slotCount, tables, storage, stmt, rowss, paramSetId, stack, batches);
  }

  lemma JoinQueryAnswered(p: OddPrime, slotCount: nat, tables: TableMap, storage: Storage, stmt: SelectStatement,
                          ls: seq<Row>, rs: seq<Row>, paramSetId: string, stack: nat, batches: seq<ResultBatch>)
    requires Ingested(tables, storage)
    requires JoinQueryMeant(p, slotCount, tables, storage, stmt, ls, rs, paramSetId, stack)
    ensures Preparable(stmt, tables)
    ensures
      var pkg := PackageFor(p, slotCount, stmt, PlanFor(tables, stmt), tables, paramSetId);
      && Servable(pkg, tables, storage, paramSetId, stack)
      && (Served(p, pkg, tables, storage, paramSetId, stack, batches) ==>
            Finished(batches, stmt) == Ok(PlainJoin(tables, stmt, ls, rs)))
  {
    JoinQueryCorrect(p, slotCount, tables, storage, stmt, ls, rs, paramSetId, stack, batches);
  }

  // ---- Over the connection ----

  /** The handler's answer to a package. */
  ghost predicate Answers(p: OddPrime, pkg: QueryPackage, tables: TableMap, storage: Storage, paramSetId: string,
                          stack: nat, answer: Result<seq<ResultBatch>>)
    requires Ingested(tables, storage)
  {
    && (answer.Ok? <==> Servable(pkg, tables, storage, paramSetId, stack))
    && (answer.Ok? ==> Served(p, pkg, tables, storage, paramSetId, stack, answer.value))
  }

  /** The server's side of a connection: its answer, if a request arrived. All of the
      answer is written, or some of it if the connection fails. */
  method ServeClient(p: OddPrime, up: Channel, down: Channel, wire: Wire, tables: TableMap, storage: Storage,
                     paramSetId: string, stack: nat, queryId: string, errorText: seq<byte>)
    returns (ghost answer: Option<Result<seq<ResultBatch>>>)
    requires Ingested(tables, storage) && up != down
    modifies up, down
    ensures
      var request := ReadFrame(old(up.inFlight));
      && (answer.Some? ==> request.Some? && request.value.value.kind == QUERY_REQUEST)
      && (up.reliable && down.reliable && request.Some? && request.value.value.kind == QUERY_REQUEST ==> answer.Some?)
    ensures answer.Some? ==>
      var written := AnswerBytes(wire.responses, wire.batches, queryId, answer.value, errorText);
      && Answers(p, wire.packages.decode(ReadFrame(old(up.inFlight)).value.value.payload), tables, storage, paramSetId,
                 stack, answer.value)
      && PartlyWritten(old(down.inFlight), down.inFlight, written)
      && (down.reliable ==> down.inFlight == old(down.inFlight) + written)
    ensures answer.None? ==>
      var request := ReadFrame(old(up.inFlight));
      if request.Some? && request.value.value.kind != QUERY_REQUEST then
        PartlyWritten(old(down.inFlight), down.inFlight, FrameBytes(Frame(ERROR, EXPECTED_REQUEST)))
      else down.inFlight == old(down.inFlight)
  {
    answer := None;
    var pkg := ReceiveRequest(up, down, wire.packages);
    if pkg.Some? {
      var handled := HandleQuery(p, pkg.value, tables, storage, paramSetId, stack);
      SendAnswer(down, wire.responses, wire.batches, queryId, handled, errorText);
      answer := Some(handled);
    }
  }

  /** The package and whatever the server may answer it with fit the 32-bit fields of
      their frames. */
  ghost predicate WireFits(p: OddPrime, wire: Wire, pkg: QueryPackage, tables: TableMap, storage: Storage,
                           paramSetId: string, stack: nat, queryId: string, errorText: seq<byte>)
    requires Ingested(tables, storage)
  {
    && |wire.packages.encode(pkg)| < 0x1_0000_0000 && |errorText| < 0x1_0000_0000
    && forall batches :: Served(p, pkg, tables, storage, paramSetId, stack, batches) ==>
         AnswerFits(wire.responses, wire.batches, queryId, batches)
  }

  /** What the client has received when the exchange is over is the server's. */
  ghost predicate ReceivesAnswer(p: OddPrime, pkg: QueryPackage, tables: TableMap, storage: Storage, paramSetId: string,
                                 stack: nat, queryId: string, errorText: seq<byte>, r: Outcome)
    requires Ingested(tables, storage)
  {
    match r
    case Broken => true
    case Refused(message) => !Servable(pkg, tables, storage, paramSetId, stack) && message == errorText
    case Batches(response, batches) =>
      && Servable(pkg, tables, storage, paramSetId, stack)
      && Served(p, pkg, tables, storage, paramSetId, stack, batches)
      && response == Response(true, [], ToU32(|batches|), queryId)
  }

  lemma FaithfulAnswer(p: OddPrime, pkg: QueryPackage, tables: TableMap, storage: Storage, paramSetId: string,
                       stack: nat, queryId: string, errorText: seq<byte>, answer: Result<seq<ResultBatch>>, r: Outcome)
    requires Ingested(tables, storage) && Answers(p, pkg, tables, storage, paramSetId, stack, answer)
    requires Faithful(queryId, answer, errorText, r)
    ensures ReceivesAnswer(p, pkg, tables, storage, paramSetId, stack, queryId, errorText, r)
  {
  }

  /** A package sent over a fresh connection. Whatever batches or error the client
      receives are what the server computes for the package, also when the connection
      fails; and if it does not fail they arrive, however the stream fragments. */
  method SendQuery(p: OddPrime, wire: Wire, pkg: QueryPackage, tables: TableMap, storage: Storage, paramSetId: string,
                   stack: nat, queryId: string, errorText: seq<byte>, reliable: bool) returns (r: Outcome)
    requires Ingested(tables, storage) && wire.Lossless()
    ensures WireFits(p, wire, pkg, tables, storage, paramSetId, stack, queryId, errorText) ==>
      && ReceivesAnswer(p, pkg, tables, storage, paramSetId, stack, queryId, errorText, r)
      && (reliable ==> !r.Broken?)
  {
    var up := new Channel(reliable);
    var down := new Channel(reliable);
    var request := Frame(QUERY_REQUEST, wire.packages.encode(pkg));
    var _ := SendFrame(up, request);
    ghost var sent := up.inFlight;
    assert PartlyWritten([], sent, FrameBytes(request)) && [] + FrameBytes(request) == FrameBytes(request);
    ghost var answer := ServeClient(p, up, down, wire, tables, storage, paramSetId, stack, queryId, errorText);
    ghost var written := down.inFlight;
    r := ReceiveAnswer(down, wire.responses, wire.batches);
    if WireFits(p, wire, pkg, tables, storage, paramSetId, stack, queryId, errorText) {
      RequestOfPart(request, sent);
      if answer.Some? {
        ghost var all := AnswerBytes(wire.responses, wire.batches, queryId, answer.value, errorText);
        assert [] + all == all;
        AnswerRead(wire.responses, wire.batches, queryId, answer.value, errorText);
        PartOfAnswer(wire.responses, wire.batches, queryId, answer.value, errorText, written, r);
        FaithfulAnswer(p, pkg, tables, storage, paramSetId, stack, queryId, errorText, answer.value, r);
      }
    }
  }

  /** A result has arrived, unless the connection has failed. */
  predicate Delivered(r: Result<seq<ResultRow>>, result: Result<seq<ResultRow>>, reliable: bool) {
    r == result || (!reliable && r == Err(ConnectionBroken))
  }

  /** The server's answer to a package, finished by the client. */
  method Answer(p: OddPrime, wire: Wire, pkg: QueryPackage, stmt: SelectStatement, tables: TableMap, storage: Storage,
                paramSetId: string, stack: nat, queryId: string, errorText: seq<byte>, reliable: bool)
    returns (r: Result<seq<ResultRow>>, ghost batches: seq<ResultBatch>)
    requires Ingested(tables, storage) && wire.Lossless()
    ensures WireFits(p, wire, pkg, tables, storage, paramSetId, stack, queryId, errorText) ==>
      if !Servable(pkg, tables, storage, paramSetId, stack) then Delivered(r, Err(ServerRefused), reliable)
      else
        || (Served(p, pkg, tables, storage, paramSetId, stack, batches) && r == Finished(batches, stmt))
        || (!reliable && r == Err(ConnectionBroken))
  {
    batches := [];
    var outcome := SendQuery(p, wire, pkg, tables, storage, paramSetId, stack, queryId, errorText, reliable);
    match outcome {
      case Batches(_, received) =>
        batches := received;
        r := Finish(received, stmt);
      case Refused(_) =>
        r := Err(ServerRefused);
      case Broken =>
        r := Err(ConnectionBroken);
    }
  }

  // ---- The whole pipeline ----

  /** The package of a statement and its answer fit the connection. */
  ghost predicate StatementFits(p: OddPrime, slotCount: nat, wire: Wire, tables: TableMap, storage: Storage,
                                stmt: SelectStatement, paramSetId: string, stack: nat, queryId: string,
                                errorText: seq<byte>)
    requires Ingested(tables, storage) && Preparable(stmt, tables)
  {
    WireFits(p, wire, PackageFor(p, slotCount, stmt, PlanFor(tables, stmt), tables, paramSetId), tables, storage,
             paramSetId, stack, queryId, errorText)
  }

  ghost predicate TableAnswerable(p: OddPrime, slotCount: nat, wire: Wire, tables: TableMap, storage: Storage,
                             stmt: SelectStatement, rowss: seq<seq<Row>>, paramSetId: string, stack: nat,
                             queryId: string, errorText: seq<byte>)
    requires Ingested(tables, storage)
  {
    && QueryMeant(p, slotCount, tables, storage, stmt, rowss, stack) && Preparable(stmt, tables)
    && StatementFits(p, slotCount, wire, tables, storage, stmt, paramSetId, stack, queryId, errorText)
  }

  ghost predicate JoinAnswerable(p: OddPrime, slotCount: nat, wire: Wire, tables: TableMap, storage: Storage,
                                 stmt: SelectStatement, ls: seq<Row>, rs: seq<Row>, paramSetId: string, stack: nat,
                                queryId: string, errorText: seq<byte>)
    requires Ingested(tables, storage)
  {
    && JoinQueryMeant(p, slotCount, tables, storage, stmt, ls, rs, paramSetId, stack) && Preparable(stmt, tables)
    && StatementFits(p, slotCount, wire, tables, storage, stmt, paramSetId, stack, queryId, errorText)
  }

  /** The whole pipeline, over the connection. For every query text the theorems cover,
      the rows are exactly those of plaintext execution: over one table for any split
      rowss of its rows into stored chunks, and over a join of tables with rows ls and
      rs. A connection that fails can only replace them by its error. */
  method ExecuteQuery(p: OddPrime, slotCount: nat, wire: Wire, sql: string, tables: TableMap, storage: Storage,
                      paramSetId: string, stack: nat, queryId: string, errorText: seq<byte>, reliable: bool,
                      ghost rowss: seq<seq<Row>>, ghost ls: seq<Row>, ghost rs: seq<Row>)
    returns (r: Result<seq<ResultRow>>)
    requires Ingested(tables, storage) && wire.Lossless()
    ensures Statement(sql).Err? ==> r == Err(Statement(sql).error)
    ensures r.Ok? ==>
      && Statement(sql).Ok? && StatementAccepted(tables, Statement(sql).value)
      && Preparable(Statement(sql).value, tables)
    ensures Statement(sql).Ok? ==>
      var stmt := Statement(sql).value;
      TableAnswerable(p, slotCount, wire, tables, storage, stmt, rowss, paramSetId, stack, queryId, errorText) ==>
        Delivered(r, Ok(PlainResult(stmt, tables[stmt.tableName], Flatten(rowss, |rowss|))), reliable)
    ensures Statement(sql).Ok? ==>
      var stmt := Statement(sql).value;
      JoinAnswerable(p, slotCount, wire, tables, storage, stmt, ls, rs, paramSetId, stack, queryId, errorText) ==>
        Delivered(r, Ok(PlainJoin(tables, stmt, ls, rs)), reliable)
  {
    var parser := new SQLParser();
    var stmt :- parser.Parse(sql);
    r := RunStatement(p, slotCount, wire, stmt, tables, storage, paramSetId, stack, queryId, errorText,
                      reliable, rowss, ls, rs);
  }

  method RunStatement(p: OddPrime, slotCount: nat, wire: Wire, stmt: SelectStatement, tables: TableMap,
                      storage: Storage,
                      paramSetId: string, stack: nat, queryId: string, errorText: seq<byte>, reliable: bool,
                      ghost rowss: seq<seq<Row>>, ghost ls: seq<Row>, ghost rs: seq<Row>)
    returns (r: Result<seq<ResultRow>>)
    requires Ingested(tables, storage) && wire.Lossless()
    ensures r.Ok? ==> Preparable(stmt, tables)
    ensures TableAnswerable(p, slotCount, wire, tables, storage, stmt, rowss, paramSetId, stack, queryId, errorText) ==>
      Delivered(r, Ok(PlainResult(stmt, tables[stmt.tableName], Flatten(rowss, |rowss|))), reliable)
    ensures JoinAnswerable(p, slotCount, wire, tables, storage, stmt, ls, rs, paramSetId, stack, queryId, errorText) ==>
      Delivered(r, Ok(PlainJoin(tables, stmt, ls, rs)), reliable)
  {
    ghost var batches: seq<ResultBatch> := [];
    var pkg := Prepare(p, slotCount, stmt, tables, paramSetId);
    if pkg.Ok? {
      r, batches := Answer(p, wire, pkg.value, stmt, tables, storage, paramSetId, stack, queryId, errorText, reliable);
    } else {
      r := Err(pkg.error);
    }
    if TableAnswerable(p, slotCount, wire, tables, storage, stmt, rowss, paramSetId, stack, queryId, errorText) {
      TableQueryAnswered(p, slotCount, tables, storage, stmt, rowss, paramSetId, stack, batches);
    }
    if JoinAnswerable(p, slotCount, wire, tables, storage, stmt, ls, rs, paramSetId, stack, queryId, errorText) {
      JoinQueryAnswered(p, slotCount, tables, storage, stmt, ls, rs, paramSetId, stack, batches);
    }
  }
}
