/** The server's sessions as a transition system: what each completion handler does to one
    session, to the shared client map and to the database, in any interleaving. */
module ServerProtocol {
  import opened Options
  import opened Strings
  import opened WireFormat

  datatype ClientConfig = ClientConfig(
    clientKey: string, email: string, memoryLimit: nat, cpuLimit: nat, processesLimit: nat)

  type Clients = map<string, ClientConfig>

  /** The one-character replies "0", "1" and "2". */
  datatype Reply = ReadSuccess | ReadFailure | NotAuthorized

  /** An asynchronous operation that has been started and not completed. */
  datatype Operation = Read | Write(reply: Reply)

  /** A session: its outstanding operations, and all replies it has started to write. */
  datatype SessionState = SessionState(outstanding: seq<Operation>, replies: seq<Reply>)

  /** The server: outstanding accepts, the shared map, sessions in order of acceptance, and the
      statements handed to the database, those it executed, and the emails sent. */
  datatype ServerState = ServerState(
    accepts: nat, clients: Clients, sessions: seq<SessionState>, attempted: seq<string>, executed: seq<string>, emails: nat)

  /** A completion handler being run. A read yields a chunk, or None on an error; `dbOk` says
      whether the database executes a statement the handler may issue. */
  datatype Event =
    | Accepted(ok: bool)
    | ReadDone(session: nat, chunk: Option<string>, dbOk: bool)
    | WriteDone(session: nat, ok: bool)

  /** A chunk with the five fields the parser reads without checking. */
  predicate WellFormed(chunk: Option<string>) {
    chunk.Some? ==> |Fields(chunk.value)| >= 5
  }

  predicate Authorized(clients: Clients, chunk: string)
    requires |Fields(chunk)| >= 5
  {
    Parsed(chunk).clientKey in clients
  }

  /** The reply a read is answered with. */
  function Verdict(clients: Clients, chunk: Option<string>): Reply
    requires WellFormed(chunk)
  {
    if chunk.None? then ReadFailure
    else if Authorized(clients, chunk.value) then ReadSuccess
    else NotAuthorized
  }

  predicate CrossesLimit(config: ClientConfig, detail: ClientDetail) {
    detail.memoryPct > config.memoryLimit || detail.cpuPct > config.cpuLimit || detail.processesCnt > config.processesLimit
  }

  /** Whether a chunk makes the handler send an email. */
  predicate Alerts(clients: Clients, chunk: Option<string>)
    requires WellFormed(chunk)
  {
    Verdict(clients, chunk).ReadSuccess? && var detail := Parsed(chunk.value); CrossesLimit(clients[detail.clientKey], detail)
  }

  /** No figure of a report is above its own limit; a figure equal to its limit is not. */
  predicate WithinLimits(config: ClientConfig, detail: ClientDetail) {
    && detail.memoryPct <= config.memoryLimit
    && detail.cpuPct <= config.cpuLimit
    && detail.processesCnt <= config.processesLimit
  }

  /** A chunk of a known client with some figure above its limit. */
  predicate Exceeds(clients: Clients, chunk: Option<string>)
    requires WellFormed(chunk)
  {
    && chunk.Some? && Parsed(chunk.value).clientKey in clients
    && !WithinLimits(clients[Parsed(chunk.value).clientKey], Parsed(chunk.value))
  }

  function StatementFor(chunk: string): string
    requires |Fields(chunk)| >= 5
  {
    InsertStatement(Parsed(chunk), "CLIENT_INFO")
  }

  // ----- steps -----

  predicate IsReading(s: SessionState) { Read in s.outstanding }

  predicate IsWriting(s: SessionState) { exists op :: op in s.outstanding && op.Write? }

  predicate Enabled(s: ServerState, e: Event) {
    match e
    case Accepted(_) => s.accepts > 0
    case ReadDone(i, chunk, _) => i < |s.sessions| && IsReading(s.sessions[i]) && WellFormed(chunk)
    case WriteDone(i, _) => i < |s.sessions| && IsWriting(s.sessions[i])
  }

  /** The operations left when one of them, or any write, has completed. */
  function WithoutRead(ops: seq<Operation>): seq<Operation> {
    if ops == [] then [] else if ops[0].Read? then ops[1..] else [ops[0]] + WithoutRead(ops[1..])
  }

  function WithoutWrite(ops: seq<Operation>): seq<Operation> {
    if ops == [] then [] else if ops[0].Write? then ops[1..] else [ops[0]] + WithoutWrite(ops[1..])
  }

  const NEW_SESSION := SessionState([Read], [])

  function AfterRead(s: SessionState, reply: Reply): SessionState {
    SessionState(WithoutRead(s.outstanding) + [Write(reply)], s.replies + [reply])
  }

  function AfterWrite(s: SessionState, ok: bool): SessionState {
    s.(outstanding := WithoutWrite(s.outstanding) + (if ok then [Read] else []))
  }

  /** What a read makes the handler insert. */
  function Inserts(clients: Clients, chunk: Option<string>): seq<string>
    requires WellFormed(chunk)
  {
    if Verdict(clients, chunk).ReadSuccess? then [StatementFor(chunk.value)] else []
  }

  function Step(s: ServerState, e: Event): ServerState
    requires Enabled(s, e)
  {
    match e
    case Accepted(ok) =>
      s.(sessions := s.sessions + (if ok then [NEW_SESSION] else []))
    case ReadDone(i, chunk, dbOk) =>
      var sql := Inserts(s.clients, chunk);
      s.(sessions := s.sessions[i := AfterRead(s.sessions[i], Verdict(s.clients, chunk))],
         attempted := s.attempted + sql,
         executed := s.executed + (if dbOk then sql else []),
         emails := s.emails + (if Alerts(s.clients, chunk) then 1 else 0))
    case WriteDone(i, ok) =>
      s.(sessions := s.sessions[i := AfterWrite(s.sessions[i], ok)])
  }

  function Initial(clients: Clients): ServerState {
    ServerState(1, clients, [], [], [], 0)
  }

  // ----- runs -----

  /** A run: every handler that runs belongs to an outstanding operation. */
  ghost predicate Feasible(s: ServerState, events: seq<Event>)
    decreases |events|
  {
    events != [] ==> Enabled(s, events[0]) && Feasible(Step(s, events[0]), events[1..])
  }

  ghost function Run(s: ServerState, events: seq<Event>): ServerState
    requires Feasible(s, events)
    decreases |events|
  {
    if events == [] then s else Run(Step(s, events[0]), events[1..])
  }

  /** Exactly one operation is outstanding, unless the session has ended; the server always has
      one accept outstanding. */
  predicate OneOperation(s: SessionState) {
    || s.outstanding == []
    || s.outstanding == [Read]
    || (s.replies != [] && s.outstanding == [Write(s.replies[|s.replies| - 1])])
  }

  predicate Safe(s: ServerState) {
    s.accepts == 1 && forall i :: 0 <= i < |s.sessions| ==> OneOperation(s.sessions[i])
  }

  lemma {:induction false} StaysSafe(s: ServerState, events: seq<Event>)
    requires Safe(s) && Feasible(s, events)
    ensures Safe(Run(s, events)) && Run(s, events).clients == s.clients && |s.sessions| <= |Run(s, events).sessions|
    decreases |events|
  {
    if events == [] {
    } else {
      StaysSafe(Step(s, events[0]), events[1..]);
    }
  }

  predicate Ended(s: ServerState, i: nat) { i < |s.sessions| && s.sessions[i].outstanding == [] }

  /** A session ends with a failed write and in no other way: until then it always has its one
      operation outstanding. */
  lemma {:induction false} EndsIffWriteFails(s: ServerState, events: seq<Event>, i: nat)
    requires Safe(s) && Feasible(s, events)
    ensures Ended(Run(s, events), i) <==> Ended(s, i) || WriteDone(i, false) in events
    decreases |events|
  {
    if events == [] {
    } else {
      EndsIffWriteFails(Step(s, events[0]), events[1..], i);
      EndsInStep(s, events[0], i);
      assert WriteDone(i, false) in events <==> events[0] == WriteDone(i, false) || WriteDone(i, false) in events[1..];
    }
  }

  lemma EndsInStep(s: ServerState, e: Event, i: nat)
    requires Safe(s) && Enabled(s, e)
    ensures Safe(Step(s, e))
    ensures Ended(Step(s, e), i) <==> Ended(s, i) || e == WriteDone(i, false)
  {
  }

  function Accepts(events: seq<Event>): nat {
    if events == [] then 0 else (if events[0] == Accepted(true) then 1 else 0) + Accepts(events[1..])
  }

  /** There is one session for every connection accepted, and none for a failed accept. */
  lemma {:induction false} SessionsAreAccepted(s: ServerState, events: seq<Event>)
    requires Feasible(s, events)
    ensures |Run(s, events).sessions| == |s.sessions| + Accepts(events)
    decreases |events|
  {
    if events == [] {
    } else {
      SessionsAreAccepted(Step(s, events[0]), events[1..]);
    }
  }

  // ----- what one session sees -----

  predicate Concerns(e: Event, i: nat) {
    !e.Accepted? && e.session == i
  }

  /** The handlers that ran for session i. */
  function Own(events: seq<Event>, i: nat): seq<Event> {
    if events == [] then [] else (if Concerns(events[0], i) then [events[0]] else []) + Own(events[1..], i)
  }

  predicate ChunksAreWellFormed(events: seq<Event>) {
    forall e <- events :: e.ReadDone? ==> WellFormed(e.chunk)
  }

  /** A session on its own, knowing only the client map. */
  function SessionStep(clients: Clients, s: SessionState, e: Event): SessionState
    requires e.ReadDone? ==> WellFormed(e.chunk)
  {
    match e
    case Accepted(_) => s
    case ReadDone(_, chunk, _) => AfterRead(s, Verdict(clients, chunk))
    case WriteDone(_, ok) => AfterWrite(s, ok)
  }

  function Alone(clients: Clients, s: SessionState, events: seq<Event>): SessionState
    requires ChunksAreWellFormed(events)
    decreases |events|
  {
    if events == [] then s else Alone(clients, SessionStep(clients, s, events[0]), events[1..])
  }

  /** The verdicts on the reads, in order. */
  function Verdicts(clients: Clients, events: seq<Event>): seq<Reply>
    requires ChunksAreWellFormed(events)
  {
    if events == [] then []
    else (if events[0].ReadDone? then [Verdict(clients, events[0].chunk)] else []) + Verdicts(clients, events[1..])
  }

  lemma {:induction false} FeasibleIsWellFormed(s: ServerState, events: seq<Event>)
    requires Feasible(s, events)
    ensures ChunksAreWellFormed(events)
    decreases |events|
  {
    if events == [] {
    } else {
      FeasibleIsWellFormed(Step(s, events[0]), events[1..]);
      forall e | e in events && e.ReadDone? ensures WellFormed(e.chunk) {
        if e != events[0] {
          assert e in events[1..];
        }
      }
    }
  }

  lemma {:induction false} OwnIsWellFormed(events: seq<Event>, i: nat)
    requires ChunksAreWellFormed(events)
    ensures ChunksAreWellFormed(Own(events, i))
  {
    if events == [] {
    } else {
      assert forall e <- events[1..] :: e in events;
      OwnIsWellFormed(events[1..], i);
    }
  }

  /** One step, seen by session i, which may not have been accepted yet. */
  lemma StepOfOne(s: ServerState, e: Event, i: nat)
    requires Enabled(s, e)
    ensures Concerns(e, i) ==>
              i < |s.sessions| && i < |Step(s, e).sessions|
              && (e.ReadDone? ==> WellFormed(e.chunk))
              && Step(s, e).sessions[i] == SessionStep(s.clients, s.sessions[i], e)
    ensures !Concerns(e, i) && i < |Step(s, e).sessions| ==>
              Step(s, e).sessions[i] == if i < |s.sessions| then s.sessions[i] else NEW_SESSION
    ensures |s.sessions| <= |Step(s, e).sessions| && Step(s, e).clients == s.clients
  {
  }

  /** Whatever the interleaving, a session ends up where its own handlers alone would take it. */
  lemma {:induction false} SessionsAreIndependent(s: ServerState, events: seq<Event>, i: nat)
    requires Feasible(s, events) && i < |Run(s, events).sessions|
    ensures ChunksAreWellFormed(Own(events, i))
    ensures Run(s, events).sessions[i] ==
              Alone(s.clients, if i < |s.sessions| then s.sessions[i] else NEW_SESSION, Own(events, i))
    decreases |events|
  {
    FeasibleIsWellFormed(s, events);
    OwnIsWellFormed(events, i);
    if events == [] {
    } else {
      StepOfOne(s, events[0], i);
      SessionsAreIndependent(Step(s, events[0]), events[1..], i);
      OwnOfRest(events, i);
    }
  }

  lemma OwnOfRest(events: seq<Event>, i: nat)
    requires events != []
    ensures if Concerns(events[0], i) then
              Own(events, i) != [] && Own(events, i)[0] == events[0] && Own(events, i)[1..] == Own(events[1..], i)
            else Own(events, i) == Own(events[1..], i)
  {
  }

  lemma OneVerdict(clients: Clients, s: SessionState, e: Event) returns (reply: seq<Reply>)
    requires e.ReadDone? ==> WellFormed(e.chunk)
    ensures reply == if e.ReadDone? then [Verdict(clients, e.chunk)] else []
    ensures SessionStep(clients, s, e).replies == s.replies + reply
  {
    hide Verdict;
    reply := if e.ReadDone? then [Verdict(clients, e.chunk)] else [];
  }

  lemma {:induction false} RepliesAreVerdicts(clients: Clients, s: SessionState, events: seq<Event>)
    requires ChunksAreWellFormed(events)
    ensures Alone(clients, s, events).replies == s.replies + Verdicts(clients, events)
    decreases |events|
  {
    if events == [] {
    } else {
      assert forall e <- events[1..] :: e in events;
      var reply := OneVerdict(clients, s, events[0]);
      RepliesAreVerdicts(clients, SessionStep(clients, s, events[0]), events[1..]);
      AppendIsAssociative(s.replies, reply, Verdicts(clients, events[1..]));
      hide SessionStep, Verdict;
    }
  }

  /** In every interleaving the i-th reply of a session answers its i-th read: "1" if the read
      failed, otherwise "0" or "2" by whether the key it carried is known. */
  lemma EveryReadIsAnswered(clients: Clients, events: seq<Event>, i: nat)
    requires Feasible(Initial(clients), events) && i < |Run(Initial(clients), events).sessions|
    ensures ChunksAreWellFormed(Own(events, i))
    ensures Run(Initial(clients), events).sessions[i].replies == Verdicts(clients, Own(events, i))
  {
    SessionsAreIndependent(Initial(clients), events, i);
    RepliesAreVerdicts(clients, NEW_SESSION, Own(events, i));
    assert NEW_SESSION.replies + Verdicts(clients, Own(events, i)) == Verdicts(clients, Own(events, i));
  }

  // ----- what the database sees -----

  /** The statements of the authorized chunks; of those the database executed, if `onlyOk`. */
  function AllInserts(clients: Clients, events: seq<Event>, onlyOk: bool): seq<string>
    requires ChunksAreWellFormed(events)
  {
    if events == [] then []
    else
      (if events[0].ReadDone? && (onlyOk ==> events[0].dbOk) then Inserts(clients, events[0].chunk) else [])
      + AllInserts(clients, events[1..], onlyOk)
  }

  function Log(s: ServerState, onlyOk: bool): seq<string> {
    if onlyOk then s.executed else s.attempted
  }

  lemma StepInserts(s: ServerState, e: Event, onlyOk: bool)
    requires Enabled(s, e)
    ensures Log(Step(s, e), onlyOk) ==
              Log(s, onlyOk) + (if e.ReadDone? && (onlyOk ==> e.dbOk) then Inserts(s.clients, e.chunk) else [])
    ensures Step(s, e).clients == s.clients
  {
  }

  /** Inserts are attempted for exactly the authorized chunks, in the order in which they are
      processed, whichever session they come from; those executed are a part of them. */
  lemma {:induction false} InsertsFollowReads(s: ServerState, events: seq<Event>, onlyOk: bool)
    requires Feasible(s, events)
    ensures ChunksAreWellFormed(events)
    ensures Log(Run(s, events), onlyOk) == Log(s, onlyOk) + AllInserts(s.clients, events, onlyOk)
    decreases |events|
  {
    FeasibleIsWellFormed(s, events);
    if events == [] {
    } else {
      var e, later := events[0], AllInserts(s.clients, events[1..], onlyOk);
      StepInserts(s, e, onlyOk);
      InsertsFollowReads(Step(s, e), events[1..], onlyOk);
      AppendIsAssociative(
        Log(s, onlyOk), if e.ReadDone? && (onlyOk ==> e.dbOk) then Inserts(s.clients, e.chunk) else [], later);
    }
  }

  // ----- whom the server alerts -----

  /** An alert is due exactly if some figure is above its limit: each alone is enough, and raising
      figures never withdraws it. */
  lemma OneFigureIsEnough(config: ClientConfig, detail: ClientDetail, raised: ClientDetail)
    ensures CrossesLimit(config, detail) <==> !WithinLimits(config, detail)
    ensures detail.memoryPct > config.memoryLimit ==> CrossesLimit(config, detail)
    ensures detail.cpuPct > config.cpuLimit ==> CrossesLimit(config, detail)
    ensures detail.processesCnt > config.processesLimit ==> CrossesLimit(config, detail)
    ensures (raised.memoryPct >= detail.memoryPct && raised.cpuPct >= detail.cpuPct && raised.processesCnt >= detail.processesCnt) ==>
              CrossesLimit(config, detail) ==> CrossesLimit(config, raised)
  {
  }

  /** How many chunks come from known clients and report a figure above their limits. */
  function ExceedingReports(clients: Clients, events: seq<Event>): nat
    requires ChunksAreWellFormed(events)
  {
    if events == [] then 0
    else
      (if events[0].ReadDone? && Exceeds(clients, events[0].chunk) then 1 else 0) + ExceedingReports(clients, events[1..])
  }

  /** In every interleaving, one email is sent for each of them, whether or not its insert has
      succeeded, and no other. */
  lemma {:induction false} EmailsFollowReads(s: ServerState, events: seq<Event>)
    requires Feasible(s, events)
    ensures ChunksAreWellFormed(events)
    ensures Run(s, events).emails == s.emails + ExceedingReports(s.clients, events)
    decreases |events|
  {
    FeasibleIsWellFormed(s, events);
    if events == [] {
    } else {
      StepAlerts(s, events[0]);
      EmailsFollowReads(Step(s, events[0]), events[1..]);
    }
  }

  lemma StepAlerts(s: ServerState, e: Event)
    requires Enabled(s, e)
    ensures Step(s, e).clients == s.clients
    ensures Step(s, e).emails == s.emails + (if e.ReadDone? && Exceeds(s.clients, e.chunk) then 1 else 0)
  {
    hide Parsed, Fields, InsertStatement;
  }

  // ----- the handlers -----

  /** The authorized clients, shared by reference by all sessions. */
  class ClientMap {
    var configs: Clients

    constructor (configs: Clients)
      ensures this.configs == configs
    {
      this.configs := configs;
    }

    method IsClientAuthorized(key: string) returns (authorized: bool)
      ensures authorized <==> key in configs
    {
      return key in configs;
    }

    /** Looks the client up with the inserting operator[]: an unknown key would be added. */
    method ShouldSendEmail(key: string, detail: ClientDetail) returns (send: bool)
      modifies this
      ensures key in old(configs) ==>
                configs == old(configs)
                && (!send <==> detail.memoryPct <= configs[key].memoryLimit && detail.cpuPct <= configs[key].cpuLimit
                               && detail.processesCnt <= configs[key].processesLimit)
      ensures key !in old(configs) ==> configs == old(configs)[key := ClientConfig("", "", 0, 0, 0)]
    {
      if key !in configs {
        configs := configs[key := ClientConfig("", "", 0, 0, 0)];
      }
      var config := configs[key];
      return detail.memoryPct > config.memoryLimit || detail.cpuPct > config.cpuLimit
             || detail.processesCnt > config.processesLimit;
    }
  }

  class Database {
    var attempted: seq<string>
    var executed: seq<string>

    constructor ()
      ensures attempted == [] && executed == []
    {
      attempted, executed := [], [];
    }

    /** An execution that fails throws; the caller swallows it. */
    method Execute(sql: string, ok: bool)
      modifies this
      ensures attempted == old(attempted) + [sql]
      ensures executed == old(executed) + (if ok then [sql] else [])
    {
      attempted := attempted + [sql];
      if ok {
        executed := executed + [sql];
      }
    }
  }

  class Outbox {
    var sent: nat

    constructor ()
      ensures sent == 0
    {
      sent := 0;
    }

    method SendEmail()
      modifies this
      ensures sent == old(sent) + 1
    {
      sent := sent + 1;
    }
  }

  class Session {
    const clients: ClientMap
    const db: Database
    const outbox: Outbox
    var outstanding: seq<Operation>
    var replies: seq<Reply>

    function State(): SessionState
      reads this
    {
      SessionState(outstanding, replies)
    }

    constructor (clients: ClientMap, db: Database, outbox: Outbox)
      ensures this.clients == clients && this.db == db && this.outbox == outbox && State() == SessionState([], [])
    {
      this.clients, this.db, this.outbox := clients, db, outbox;
      outstanding, replies := [], [];
    }

    method DoRead()
      modifies this`outstanding
      ensures outstanding == old(outstanding) + [Read]
    {
      outstanding := outstanding + [Read];
    }

    method DoWrite(reply: Reply)
      modifies this`outstanding, this`replies
      ensures outstanding == old(outstanding) + [Write(reply)] && replies == old(replies) + [reply]
    {
      outstanding := outstanding + [Write(reply)];
      replies := replies + [reply];
    }

    method OnRead(chunk: Option<string>, dbOk: bool)
      requires IsReading(State()) && WellFormed(chunk)
      modifies this, clients, db, outbox
      ensures State() == AfterRead(old(State()), Verdict(old(clients.configs), chunk))
      ensures clients.configs == old(clients.configs)
      ensures outbox.sent == old(outbox.sent) + (if Exceeds(clients.configs, chunk) then 1 else 0)
      ensures db.attempted == old(db.attempted) + Inserts(clients.configs, chunk)
      ensures db.executed == old(db.executed) + (if dbOk then Inserts(clients.configs, chunk) else [])
    {
      hide InsertStatement, Fields, WithoutNewlines, Atoi, WithinLimits;
      outstanding := WithoutRead(outstanding);
      if chunk.None? {
        DoWrite(ReadFailure);
        return;
      }
      var detail := ParseToClientDetail(chunk.value);
      var authorized := clients.IsClientAuthorized(detail.clientKey);
      if !authorized {
        DoWrite(NotAuthorized);
      } else {
        Record(detail, dbOk);
        DoWrite(ReadSuccess);
      }
    }

    /** Inserts the report and alerts the owner, if the client is an authorized one. */
    method Record(detail: ClientDetail, dbOk: bool)
      requires detail.clientKey in clients.configs
      modifies clients, db, outbox
      ensures clients.configs == old(clients.configs)
      ensures db.attempted == old(db.attempted) + [InsertStatement(detail, "CLIENT_INFO")]
      ensures db.executed == old(db.executed) + (if dbOk then [InsertStatement(detail, "CLIENT_INFO")] else [])
      ensures outbox.sent == old(outbox.sent) + (if WithinLimits(clients.configs[detail.clientKey], detail) then 0 else 1)
    {
      db.Execute(InsertStatement(detail, "CLIENT_INFO"), dbOk);
      var send := clients.ShouldSendEmail(detail.clientKey, detail);
      if send {
        outbox.SendEmail();
      }
    }

    method OnWritten(ok: bool)
      requires IsWriting(State())
      modifies this`outstanding
      ensures State() == AfterWrite(old(State()), ok)
    {
      outstanding := WithoutWrite(outstanding);
      if ok {
        DoRead();
      }
    }
  }

  class Server {
    const clients: ClientMap
    const db: Database
    const outbox: Outbox
    var accepts: nat
    var sessions: seq<Session>

    ghost predicate Valid()
      reads this, sessions
    {
      && (forall s <- sessions :: s.clients == clients && s.db == db && s.outbox == outbox)
      && (forall i, j :: 0 <= i < j < |sessions| ==> sessions[i] != sessions[j])
    }

    ghost function State(): ServerState
      reads this, sessions, clients, db, outbox
    {
      ServerState(accepts, clients.configs,
                  seq(|sessions|, i requires 0 <= i < |sessions| reads this, sessions => sessions[i].State()),
                  db.attempted, db.executed, outbox.sent)
    }

    constructor (configs: Clients)
      ensures Valid() && fresh(clients) && fresh(db) && fresh(outbox) && State() == Initial(configs)
    {
      clients := new ClientMap(configs);
      db := new Database();
      outbox := new Outbox();
      accepts, sessions := 1, [];
    }

    method OnAccepted(ok: bool)
      requires Valid() && accepts > 0
      modifies this
      ensures Valid() && State() == Step(old(State()), Accepted(ok))
      ensures old(sessions) <= sessions && fresh(sessions[|old(sessions)|..])
    {
      accepts := accepts - 1;
      if ok {
        var session := new Session(clients, db, outbox);
        session.DoRead();
        assert session.State() == NEW_SESSION;
        sessions := sessions + [session];
      }
      accepts := accepts + 1;
      assert State().sessions == old(State().sessions) + (if ok then [NEW_SESSION] else []);
    }

    method OnReadDone(i: nat, chunk: Option<string>, dbOk: bool)
      requires Valid() && i < |sessions| && IsReading(sessions[i].State()) && WellFormed(chunk)
      modifies sessions[i], clients, db, outbox
      ensures Valid() && State() == Step(old(State()), ReadDone(i, chunk, dbOk))
    {
      sessions[i].OnRead(chunk, dbOk);
    }

    method OnWriteDone(i: nat, ok: bool)
      requires Valid() && i < |sessions| && IsWriting(sessions[i].State())
      modifies sessions[i]
      ensures Valid() && State() == Step(old(State()), WriteDone(i, ok))
    {
      sessions[i].OnWritten(ok);
    }
  }
}
