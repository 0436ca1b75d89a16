/** One client against the server, among whatever else the server does: what becomes of a client
    the server does not know, and of one it knows. */
module ClientServer {
  import opened Options
  import opened Strings
  import opened StatementReader
  import opened WireFormat
  import opened ServerProtocol
  import opened RepeatTimer

  /** Where the client's current request stands. `session` is the server's session for it, and
      `failed` says that reading the line failed. */
  datatype Phase =
    | Idle
    | Sent(line: string)
    | Accepted(line: string, session: nat)
    | Answered(session: nat, failed: bool)

  /** `broken` says that the client has given the current request up; the server may not know. */
  datatype System = System(server: ServerState, client: ClientState, phase: Phase, broken: bool)

  /** What happens next: the client's timer fires; the server accepts its connection, reads its
      line or fails to, and has its reply delivered; its connection breaks; anything else on the
      server, other connections included; or the user quits the client. Durations are those of
      the work that ends. */
  datatype Happening =
    | ClientFires(memory: nat, cpu: nat, processes: nat, time: string)
    | ServerAccepts
    | ServerReads(dbOk: bool)
    | ServerReadFails
    | ReplyDelivered(duration: nat)
    | ConnectionBreaks(duration: nat)
    | Elsewhere(event: Event)
    | ClientQuits

  /** Session i still has to deal with the client's request. */
  predicate Busy(s: System, i: nat) {
    match s.phase
    case Accepted(_, session) => session == i
    case Answered(session, _) => session == i && !s.broken
    case _ => false
  }

  predicate Possible(s: System, h: Happening) {
    match h
    case ClientFires(_, _, _, _) => s.phase.Idle? && s.client.waiting
    case ServerAccepts => s.phase.Sent? && s.server.accepts > 0
    case ServerReads(_) =>
      s.phase.Accepted? && Enabled(s.server, ReadDone(s.phase.session, Some(s.phase.line), false))
    case ServerReadFails => s.phase.Accepted? && Enabled(s.server, ReadDone(s.phase.session, Option.None, false))
    case ReplyDelivered(_) => s.phase.Answered? && !s.broken && Enabled(s.server, WriteDone(s.phase.session, true))
    case ConnectionBreaks(_) => !s.phase.Idle? && !s.broken
    case Elsewhere(e) => Enabled(s.server, e) && (!e.Accepted? ==> !Busy(s, e.session))
    case ClientQuits => true
  }

  function LastReply(s: SessionState): Reply {
    if s.replies == [] then ReadFailure else s.replies[|s.replies| - 1]
  }

  function Next(s: System, key: string, interval: nat, h: Happening): System
    requires Possible(s, h)
  {
    match h
    case ClientFires(m, c, p, time) =>
      var line := Line(key, m, c, p, time);
      s.(client := Begin(s.client, line), phase := Sent(line))
    case ServerAccepts =>
      s.(server := Step(s.server, Event.Accepted(true)), phase := Phase.Accepted(s.phase.line, |s.server.sessions|))
    case ServerReads(dbOk) =>
      s.(server := Step(s.server, ReadDone(s.phase.session, Some(s.phase.line), dbOk)), phase := Answered(s.phase.session, false))
    case ServerReadFails =>
      s.(server := Step(s.server, ReadDone(s.phase.session, Option.None, false)), phase := Answered(s.phase.session, true))
    case ReplyDelivered(duration) =>
      var reply := LastReply(s.server.sessions[s.phase.session]);
      s.(server := Step(s.server, WriteDone(s.phase.session, true)),
         client := Finish(s.client, interval, Replied(reply), duration), phase := Idle)
    case ConnectionBreaks(duration) => s.(client := Finish(s.client, interval, Threw, duration), broken := true)
    case Elsewhere(e) => s.(server := Step(s.server, e))
    case ClientQuits => s.(client := s.client.(stop := true))
  }

  ghost predicate Happens(s: System, key: string, interval: nat, hs: seq<Happening>)
    decreases |hs|
  {
    hs != [] ==> Possible(s, hs[0]) && Happens(Next(s, key, interval, hs[0]), key, interval, hs[1..])
  }

  ghost function After(s: System, key: string, interval: nat, hs: seq<Happening>): System
    requires Happens(s, key, interval, hs)
    decreases |hs|
  {
    if hs == [] then s else After(Next(s, key, interval, hs[0]), key, interval, hs[1..])
  }

  function Start(clients: Clients, now: nat, interval: nat): System {
    System(Initial(clients), Started(now, interval), Idle, false)
  }

  /** The key as the server reads it off the client's lines. */
  predicate Known(clients: Clients, key: string) {
    key[..FirstOf('|', key)] in clients
  }

  /** The statements one happening leads to: those of other connections and, if `ours`, the one
      for the client's own line as the server reads it. */
  function Due(s: System, h: Happening, ours: bool): seq<string>
    requires Possible(s, h)
  {
    if h.Elsewhere? && h.event.ReadDone? then Inserts(s.server.clients, h.event.chunk)
    else if h.ServerReads? && ours then [StatementFor(s.phase.line)]
    else []
  }

  ghost function AllDue(s: System, key: string, interval: nat, hs: seq<Happening>, ours: bool): seq<string>
    requires Happens(s, key, interval, hs)
    decreases |hs|
  {
    if hs == [] then [] else Due(s, hs[0], ours) + AllDue(Next(s, key, interval, hs[0]), key, interval, hs[1..], ours)
  }

  /** The reply to the client's line, by whether reading it failed. */
  function ReplyTo(clients: Clients, key: string, failed: bool): Reply {
    if failed then ReadFailure else if Known(clients, key) then ReadSuccess else NotAuthorized
  }

  /** What holds while the client's request is under way. */
  ghost predicate Consistent(s: System, key: string) {
    && (s.phase.Sent? || s.phase.Accepted? ==>
          |Fields(s.phase.line)| >= 5 && Parsed(s.phase.line).clientKey == key[..FirstOf('|', key)])
    && (s.phase.Answered? && !s.broken ==>
          s.phase.session < |s.server.sessions|
          && LastReply(s.server.sessions[s.phase.session]) == ReplyTo(s.server.clients, key, s.phase.failed))
    && (!s.phase.Idle? ==> !s.client.waiting)
    && (s.broken ==> !s.phase.Idle?)
  }

  lemma StaysConsistent(s: System, key: string, interval: nat, h: Happening)
    requires Consistent(s, key) && Possible(s, h)
    ensures Consistent(Next(s, key, interval, h), key) && Next(s, key, interval, h).server.clients == s.server.clients
  {
    hide Inserts, StatementFor, Line, Fields, Parsed, FirstOf;
    if h.ClientFires? {
      KeyOfLine(key, h.memory, h.cpu, h.processes, h.time);
    }
  }

  lemma {:induction false} AlwaysConsistent(s: System, key: string, interval: nat, hs: seq<Happening>)
    requires Happens(s, key, interval, hs) && Consistent(s, key)
    ensures var t := After(s, key, interval, hs); Consistent(t, key) && t.server.clients == s.server.clients
    decreases |hs|
  {
    if hs == [] {
    } else {
      StaysConsistent(s, key, interval, hs[0]);
      AlwaysConsistent(Next(s, key, interval, hs[0]), key, interval, hs[1..]);
    }
  }

  // ----- a client the server does not know -----

  /** In every run, a reply delivered to an unknown client whose user has not quit raises its flag
      exactly if reading its line had succeeded; otherwise it goes on to its next firing. */
  lemma ReplyStopsIffReadSucceeded(
    clients: Clients, key: string, now: nat, interval: nat, hs: seq<Happening>, duration: nat)
    requires Happens(Start(clients, now, interval), key, interval, hs) && !Known(clients, key)
    requires var s := After(Start(clients, now, interval), key, interval, hs);
             Possible(s, ReplyDelivered(duration)) && !s.client.stop
    ensures var s := After(Start(clients, now, interval), key, interval, hs);
            var t := Next(s, key, interval, ReplyDelivered(duration));
            (t.client.stop <==> !s.phase.failed) && (t.client.waiting <==> s.phase.failed)
  {
    AlwaysConsistent(Start(clients, now, interval), key, interval, hs);
  }

  /** How many replies have been delivered to the client for reads that failed, or that did not. */
  ghost function Deliveries(s: System, key: string, interval: nat, hs: seq<Happening>, failed: bool): nat
    requires Happens(s, key, interval, hs)
    decreases |hs|
  {
    if hs == [] then 0
    else
      (if hs[0].ReplyDelivered? && s.phase.failed == failed then 1 else 0)
      + Deliveries(Next(s, key, interval, hs[0]), key, interval, hs[1..], failed)
  }

  function UnderWay(s: System): nat { if s.phase.Idle? then 0 else 1 }

  /** Every request but the one under way has had its reply delivered. */
  lemma {:induction false} RequestsAreAnswered(s: System, key: string, interval: nat, hs: seq<Happening>)
    requires Happens(s, key, interval, hs)
    ensures var t := After(s, key, interval, hs);
            |t.client.requests| + UnderWay(s) ==
            |s.client.requests| + Deliveries(s, key, interval, hs, true) + Deliveries(s, key, interval, hs, false) + UnderWay(t)
    decreases |hs|
  {
    if hs == [] {
    } else {
      RequestsAreAnswered(Next(s, key, interval, hs[0]), key, interval, hs[1..]);
    }
  }

  predicate Halted(s: System) { s.client.stop && s.phase.Idle? && !s.client.waiting }

  lemma {:induction false} HaltedForGood(s: System, key: string, interval: nat, hs: seq<Happening>)
    requires Happens(s, key, interval, hs) && Halted(s)
    ensures Halted(After(s, key, interval, hs))
    ensures Deliveries(s, key, interval, hs, true) == Deliveries(s, key, interval, hs, false) == 0
    decreases |hs|
  {
    if hs == [] {
    } else {
      HaltedForGood(Next(s, key, interval, hs[0]), key, interval, hs[1..]);
    }
  }

  lemma {:induction false} UnknownClientFrom(s: System, key: string, interval: nat, hs: seq<Happening>)
    requires Happens(s, key, interval, hs) && Consistent(s, key) && !Known(s.server.clients, key)
    ensures var t := After(s, key, interval, hs);
            var read := Deliveries(s, key, interval, hs, false);
            && read <= 1 && (read == 1 ==> Halted(t))
            && (t.client.stop <==> s.client.stop || read == 1 || ClientQuits in hs)
    decreases |hs|
  {
    if hs == [] {
    } else {
      var s1 := Next(s, key, interval, hs[0]);
      StaysConsistent(s, key, interval, hs[0]);
      UnknownClientFrom(s1, key, interval, hs[1..]);
      assert ClientQuits in hs <==> hs[0].ClientQuits? || ClientQuits in hs[1..];
      if hs[0].ReplyDelivered? && !s.phase.failed {
        HaltedForGood(s1, key, interval, hs[1..]);
      }
    }
  }

  /** A client the server does not know makes at most one request more than it is told that a read
      has failed. Once a reply to a line that was read has been delivered it has stopped, with
      exactly that many requests; only that, or its user, ever stops it. */
  lemma UnknownClientStopsWhenRead(clients: Clients, key: string, now: nat, interval: nat, hs: seq<Happening>)
    requires Happens(Start(clients, now, interval), key, interval, hs) && !Known(clients, key)
    ensures var s := Start(clients, now, interval);
            var t := After(s, key, interval, hs);
            var failed, read := Deliveries(s, key, interval, hs, true), Deliveries(s, key, interval, hs, false);
            && |t.client.requests| <= 1 + failed
            && read <= 1 && (read == 1 ==> Halted(t) && |t.client.requests| == 1 + failed)
            && (t.client.stop <==> read == 1 || ClientQuits in hs)
  {
    UnknownClientFrom(Start(clients, now, interval), key, interval, hs);
    RequestsAreAnswered(Start(clients, now, interval), key, interval, hs);
  }

  /** If no read of its line fails, in particular, it makes at most one request. */
  lemma UnknownClientStopsAfterOneRequest(clients: Clients, key: string, now: nat, interval: nat, hs: seq<Happening>)
    requires Happens(Start(clients, now, interval), key, interval, hs) && !Known(clients, key)
    requires ServerReadFails !in hs
    ensures var t := After(Start(clients, now, interval), key, interval, hs);
            && |t.client.requests| <= 1
            && ((exists h <- hs :: h.ReplyDelivered?) ==> |t.client.requests| == 1 && Halted(t))
  {
    var s := Start(clients, now, interval);
    UnknownClientStopsWhenRead(clients, key, now, interval, hs);
    NoFailedDelivery(s, key, interval, hs);
  }

  lemma {:induction false} NoFailedDelivery(s: System, key: string, interval: nat, hs: seq<Happening>)
    requires Happens(s, key, interval, hs) && ServerReadFails !in hs && (s.phase.Answered? ==> !s.phase.failed)
    ensures Deliveries(s, key, interval, hs, true) == 0
    ensures (exists h <- hs :: h.ReplyDelivered?) ==> Deliveries(s, key, interval, hs, false) > 0
    decreases |hs|
  {
    if hs == [] {
    } else {
      assert forall h <- hs[1..] :: h in hs;
      NoFailedDelivery(Next(s, key, interval, hs[0]), key, interval, hs[1..]);
    }
  }

  /** A failed read does make it go on: the unknown client is told "1" and sends a second request. */
  lemma FailedReadAllowsSecondRequest(clients: Clients, key: string, now: nat, interval: nat)
    requires !Known(clients, key)
    ensures var fires := ClientFires(1, 1, 1, "");
            var hs := [fires, ServerAccepts, ServerReadFails, ReplyDelivered(0), fires];
            && Happens(Start(clients, now, interval), key, interval, hs)
            && |After(Start(clients, now, interval), key, interval, hs).client.requests| == 2
  {
    var fires := ClientFires(1, 1, 1, "");
    var s0 := Start(clients, now, interval);
    var s1 := Next(s0, key, interval, fires);
    var s2 := Next(s1, key, interval, ServerAccepts);
    var s3 := Next(s2, key, interval, ServerReadFails);
    assert s3.server.sessions[0].outstanding == [Write(ReadFailure)];
    assert Write(ReadFailure) in s3.server.sessions[0].outstanding;
    var s4 := Next(s3, key, interval, ReplyDelivered(0));
    RunBefore(s4, key, interval, fires, []);
    RunBefore(s3, key, interval, ReplyDelivered(0), [fires]);
    RunBefore(s2, key, interval, ServerReadFails, [ReplyDelivered(0), fires]);
    RunBefore(s1, key, interval, ServerAccepts, [ServerReadFails, ReplyDelivered(0), fires]);
    RunBefore(s0, key, interval, fires, [ServerAccepts, ServerReadFails, ReplyDelivered(0), fires]);
  }

  lemma RunBefore(s: System, key: string, interval: nat, h: Happening, hs: seq<Happening>)
    requires Possible(s, h) && Happens(Next(s, key, interval, h), key, interval, hs)
    ensures Happens(s, key, interval, [h] + hs)
    ensures After(s, key, interval, [h] + hs) == After(Next(s, key, interval, h), key, interval, hs)
  {
    assert ([h] + hs)[1..] == hs;
  }

  // ----- what the server inserts, and a client it knows -----

  lemma {:induction false} NoQuoteLeft(s: string)
    requires '\'' !in s
    ensures '\'' !in WithoutNewlines(s)
  {
    if s == "" {
    } else {
      NoQuoteLeft(s[1..]);
    }
  }

  /** From end to end: the statement for a client's line puts each of its figures under its own
      column of the table of reports. */
  lemma LineIsStored(key: string, memory: nat, cpu: nat, processes: nat, time: string)
    requires '|' !in key && '|' !in time && '\'' !in key && '\'' !in time
    requires memory < 0x8000_0000 && cpu < 0x8000_0000 && processes < 0x8000_0000
    ensures |Fields(Line(key, memory, cpu, processes, time))| >= 5
    ensures ReadInsert(StatementFor(Line(key, memory, cpu, processes, time)), "CLIENT_INFO") == Some([
              Cell("CLIENT_KEY", Quoted(key)),
              Cell("MEMORY_PCT", Plain(ToDecimal(memory))),
              Cell("CPU_PCT", Plain(ToDecimal(cpu))),
              Cell("NO_PROCESSES", Plain(ToDecimal(processes))),
              Cell("DT_TIME", Quoted(WithoutNewlines(time)))])
  {
    LineRoundTrip(key, memory, cpu, processes, time);
    NoQuoteLeft(time);
    hide Line, Fields, Parsed, ReadInsert, InsertStatement, FirstOf;
    StatementHoldsRow(ClientDetail(key, memory, cpu, processes, WithoutNewlines(time)), "CLIENT_INFO");
  }

  lemma StepAttempts(s: System, key: string, interval: nat, h: Happening)
    requires Possible(s, h) && Consistent(s, key)
    ensures Next(s, key, interval, h).server.attempted == s.server.attempted + Due(s, h, Known(s.server.clients, key))
  {
    hide Line, Fields, Parsed, FirstOf, InsertStatement;
    assert s.server.attempted + [] == s.server.attempted;
  }

  /** The client's lines are inserted exactly as the server reads them, if its key is known, and
      never otherwise; all other statements are those of other connections. */
  lemma {:induction false} AttemptsAccountedFor(s: System, key: string, interval: nat, hs: seq<Happening>)
    requires Happens(s, key, interval, hs) && Consistent(s, key)
    ensures After(s, key, interval, hs).server.attempted ==
              s.server.attempted + AllDue(s, key, interval, hs, Known(s.server.clients, key))
    decreases |hs|
  {
    if hs == [] {
    } else {
      var ours := Known(s.server.clients, key);
      var s1 := Next(s, key, interval, hs[0]);
      StaysConsistent(s, key, interval, hs[0]);
      StepAttempts(s, key, interval, hs[0]);
      AttemptsAccountedFor(s1, key, interval, hs[1..]);
      AppendIsAssociative(s.server.attempted, Due(s, hs[0], ours), AllDue(s1, key, interval, hs[1..], ours));
    }
  }

  /** A client the server knows is never stopped by it, whether its lines are read or not: while
      neither its connection breaks nor its user quits, it is waiting for the next firing or has a
      request under way. */
  lemma {:induction false} KnownClientGoesOn(s: System, key: string, interval: nat, hs: seq<Happening>)
    requires Happens(s, key, interval, hs) && Consistent(s, key) && Known(s.server.clients, key)
    requires !s.client.stop && (s.phase.Idle? ==> s.client.waiting)
    requires forall h <- hs :: !h.ConnectionBreaks? && !h.ClientQuits?
    requires !s.broken
    ensures var t := After(s, key, interval, hs);
            !t.client.stop && (t.phase.Idle? ==> t.client.waiting)
    decreases |hs|
  {
    if hs == [] {
    } else {
      StaysConsistent(s, key, interval, hs[0]);
      assert forall h <- hs[1..] :: h in hs;
      KnownClientGoesOn(Next(s, key, interval, hs[0]), key, interval, hs[1..]);
    }
  }
}
