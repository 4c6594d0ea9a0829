/**
 The connection protocol of the TUI's event loop (`backend/apps/omnescode/src/app.rs`, `run`): in-loop reconnect, one
 daemon respawn per disconnected episode, migration from the relay back to the direct path, and transactional adoption
 of a new client. The environment answers every connect, pane build, state query and clock reading arbitrarily, and
 logs its answers. A ghost trace records them together with what the loop did, and the loop invariant says that every
 action in it was the one its history called for.
 */
module ConnectionLoop {
  import opened ConnectionHistory
  import opened Wrappers

  datatype Route = Route(hasDirect: bool, hasRelay: bool, directAttempts: nat, reprobeSecs: nat)

  datatype ConnectTarget = LocalSocket | Wss(route: Route)

  // ----- The environment -----

  /** Reaching a leg requires the coordinates it is dialled with. */
  predicate Dialable(target: ConnectTarget, leg: ActiveLeg) {
    match leg
    case Local => target.LocalSocket?
    case WssDirect => target.Wss? && target.route.hasDirect
    case WssRelay => target.Wss? && target.route.hasRelay
  }

  function DirectAttempts(route: Route): nat {
    if !route.hasDirect then 0 else if route.directAttempts > 1 then route.directAttempts else 1
  }

  /** One dial, and whether it got through. */
  datatype Dial = Dialled(leg: ActiveLeg, through: bool)

  function FailedDials(leg: ActiveLeg, n: nat): seq<Dial> { seq(n, _ => Dialled(leg, false)) }

  /** Connections, panes and the clock. A client that has gone down stays down. */
  class Network {
    var now: Instant
    var down: set<Client>
    var dialled: map<Client, ActiveLeg>
    /** Every answer given to the loop, and every dial. */
    ghost var answers: seq<Answer>
    ghost var dials: seq<Dial>

    ghost predicate Evolved(now0: Instant, down0: set<Client>, dialled0: map<Client, ActiveLeg>)
      reads this
    {
      && now >= now0
      && down >= down0
      && (forall c | c in dialled0 :: c in dialled && dialled[c] == dialled0[c])
    }

    constructor ()
      ensures dialled == map[] && answers == [] && dials == []
    {
      now, down, dialled, answers, dials := 0, {}, map[], [], [];
    }

    method Pass()
      modifies this`now
      ensures now >= old(now)
    {
      var waited :| waited >= 0;
      now := now + waited;
    }

    method Disconnected(client: Client) returns (disconnected: bool)
      modifies this`now, this`down, this`answers
      ensures Evolved(old(now), old(down), old(dialled))
      ensures disconnected <==> client in down
      ensures answers == old(answers) + [Status(disconnected)]
    {
      Pass();
      var drops := *;
      if drops {
        down := down + {client};
      }
      disconnected := client in down;
      answers := answers + [Status(disconnected)];
    }

    method Clock() returns (time: Instant)
      modifies this`now, this`answers
      ensures now >= old(now) && time == now
      ensures answers == old(answers) + [Time(time)]
    {
      Pass();
      time := now;
      answers := answers + [Time(time)];
    }

    /** Rebuilding the panes against a client works or fails. */
    method BuildPanes() returns (built: bool)
      modifies this`now, this`answers
      ensures now >= old(now) && answers == old(answers) + [Panes(built)]
    {
      Pass();
      built := *;
      answers := answers + [Panes(built)];
    }

    /** One dial of one leg: it fails, or yields a client never seen before. */
    method Dial(leg: ActiveLeg) returns (client: Result<Client>)
      modifies this`now, this`dialled, this`dials
      ensures Evolved(old(now), old(down), old(dialled))
      ensures client.Err? ==> dialled == old(dialled)
      ensures client.Ok? ==> client.value !in old(dialled) && dialled == old(dialled)[client.value := leg]
      ensures client.Ok? ==> client.value !in down
      ensures dials == old(dials) + [Dialled(leg, client.Ok?)]
    {
      Pass();
      var connects := *;
      var made: Client :| made >= 0;
      if connects && made !in dialled && made !in down {
        dialled := dialled[made := leg];
        client := Ok(made);
      } else {
        client := Err;
      }
      dials := dials + [Dialled(leg, client.Ok?)];
    }

    /**
     Direct first, for a bounded number of attempts; then the relay, when there is one. It is given up only when every
     dial the route allows has failed.
     */
    method ConnectPreferred(route: Route) returns (result: Result<(Client, ActiveLeg)>)
      modifies this`now, this`dialled, this`dials
      ensures Evolved(old(now), old(down), old(dialled))
      ensures result.Err? ==> dialled == old(dialled)
      ensures result.Ok? ==> Made(result.value, old(dialled)) && Dialable(Wss(route), result.value.1)
      ensures result.Ok? ==>
        || (result.value.1 == WssDirect && route.hasDirect) || (result.value.1 == WssRelay && route.hasRelay)
      ensures result.Err? ==>
        dials == old(dials) + FailedDials(WssDirect, DirectAttempts(route))
          + FailedDials(WssRelay, if route.hasRelay then 1 else 0)
      // The relay is a fallback: it carries the session only when every direct attempt was spent.
      ensures result.Ok? && result.value.1 == WssRelay ==>
        dials == old(dials) + FailedDials(WssDirect, DirectAttempts(route)) + [Dialled(WssRelay, true)]
      ensures result.Ok? && result.value.1 == WssDirect ==>
        exists n | 0 <= n < DirectAttempts(route) ::
          dials == old(dials) + FailedDials(WssDirect, n) + [Dialled(WssDirect, true)]
    {
      if route.hasDirect {
        var attempts := if route.directAttempts > 1 then route.directAttempts else 1;
        var tried := 0;
        while tried < attempts
          invariant 0 <= tried <= attempts && dials == old(dials) + FailedDials(WssDirect, tried)
          invariant Evolved(old(now), old(down), old(dialled)) && dialled == old(dialled)
        {
          var client := Dial(WssDirect);
          if client.Ok? {
            return Ok((client.value, WssDirect));
          }
          tried := tried + 1;
        }
        if route.hasRelay {
          var client := Dial(WssRelay);
          if client.Ok? {
            return Ok((client.value, WssRelay));
          }
        }
        return Err;
      }
      if !route.hasRelay {
        return Err;
      }
      var client := Dial(WssRelay);
      if client.Ok? {
        return Ok((client.value, WssRelay));
      }
      return Err;
    }

    /** A client never seen before, dialled on the leg it comes with. */
    ghost predicate Made(connection: (Client, ActiveLeg), dialled0: map<Client, ActiveLeg>)
      reads this
    {
      && connection.0 !in dialled0 && connection.0 !in down && dialled == dialled0[connection.0 := connection.1]
    }

    method Connect(target: ConnectTarget) returns (result: Result<(Client, ActiveLeg)>)
      modifies this`now, this`dialled, this`dials
      ensures Evolved(old(now), old(down), old(dialled))
      ensures result.Err? ==> dialled == old(dialled)
      ensures result.Ok? ==> Made(result.value, old(dialled)) && Dialable(target, result.value.1)
      ensures target.LocalSocket? ==> dials == old(dials) + [Dialled(Local, result.Ok?)]
      ensures target.Wss? && result.Err? ==>
        dials == old(dials) + FailedDials(WssDirect, DirectAttempts(target.route))
          + FailedDials(WssRelay, if target.route.hasRelay then 1 else 0)
    {
      match target {
        case LocalSocket =>
          var client := Dial(Local);
          result := if client.Ok? then Ok((client.value, Local)) else Err;
        case Wss(route) =>
          result := ConnectPreferred(route);
      }
    }

    /** Polls the connection task; the connection it made is handed out when it has ended. */
    method TakeReconnect(target: ConnectTarget) returns (ending: Ending)
      modifies this`now, this`dialled, this`dials, this`answers
      ensures Evolved(old(now), old(down), old(dialled))
      ensures !ending.Connected? ==> dialled == old(dialled)
      ensures ending.Connected? ==> Made((ending.client, ending.leg), old(dialled)) && Dialable(target, ending.leg)
      ensures answers == old(answers) + [Reconnect(ending)]
      // An attempt fails only when every dial the target allows has failed.
      ensures ending.Unfinished? ==> dials == old(dials)
      ensures ending.Failed? ==>
        dials == old(dials) + match target
          case LocalSocket => FailedDials(Local, 1)
          case Wss(route) =>
            FailedDials(WssDirect, DirectAttempts(route)) + FailedDials(WssRelay, if route.hasRelay then 1 else 0)
    {
      var finished := *;
      if !finished {
        ending := Unfinished;
      } else {
        var result := Connect(target);
        ending := if result.Ok? then Connected(result.value.0, result.value.1) else Failed;
      }
      answers := answers + [Reconnect(ending)];
    }

    /** Polls a probe, which dials the direct leg only, once. */
    method TakeReprobe() returns (ending: Ending)
      modifies this`now, this`dialled, this`dials, this`answers
      ensures Evolved(old(now), old(down), old(dialled))
      ensures !ending.Connected? ==> dialled == old(dialled)
      ensures ending.Connected? ==> ending.leg == WssDirect && Made((ending.client, WssDirect), old(dialled))
      ensures answers == old(answers) + [Reprobe(ending)]
      ensures dials == old(dials) + if ending.Unfinished? then [] else [Dialled(WssDirect, ending.Connected?)]
    {
      var finished := *;
      if !finished {
        ending := Unfinished;
      } else {
        var direct := Dial(WssDirect);
        ending := if direct.Ok? then Connected(direct.value, WssDirect) else Failed;
      }
      answers := answers + [Reprobe(ending)];
    }
  }

  /**
   The leg to run with after an adoption attempt: the leg that was dialled, but only once the panes run on it.
   */
  function LegAfterAdoption(adopted: bool, current: ActiveLeg, connected: ActiveLeg): ActiveLeg {
    if adopted then connected else current
  }

  // ----- The loop -----

  class Session {
    const network: Network
    const target: ConnectTarget
    const ownsEphemeral: bool
    var rpc: Client
    /** The client the panes were built against. */
    var panes: Client
    var activeLeg: ActiveLeg
    var reconnectLastAttempt: Option<Instant>
    var reconnectAttempt: bool
    var ephemeralRespawnDone: bool
    var needsIntervention: bool
    var reprobeLastAttempt: Option<Instant>
    var directReprobeAttempt: bool
    /** The connection the run started with, and what the environment had answered before it. */
    ghost const first: Memory
    ghost const before: seq<Answer>
    ghost var trace: seq<Action>
    /** How many iterations the loop has begun. */
    ghost var turns: nat

    /** The trace is a lawful one that has come to this state, and holds what the environment answered. */
    ghost predicate Valid(duty: Duty)
      reads this, network
    {
      && Consistent()
      && Remember(trace, first, Rules()) == Some(State(duty))
      && network.answers == before + HeardIn(trace)
      && Fresh(trace, first.client)
    }

    ghost function State(duty: Duty): Memory
      reads this
    {
      Memory(rpc, activeLeg, reconnectLastAttempt, reconnectAttempt, reprobeLastAttempt, directReprobeAttempt,
        ephemeralRespawnDone && target.LocalSocket?, needsIntervention, turns, duty)
    }

    /** The panes, `rpc` and the active leg describe one connection; a probe runs only to leave the relay. */
    ghost predicate Consistent()
      reads this, network
    {
      && first == Start(first.client, first.leg)
      && panes == rpc
      && rpc in network.dialled && network.dialled[rpc] == activeLeg
      && InstalledIn(trace) + {first.client} <= network.dialled.Keys
      && Dialable(target, activeLeg)
      && (directReprobeAttempt ==> activeLeg == WssRelay && MayProbe())
      && (reconnectAttempt ==> rpc in network.down)
      && (ephemeralRespawnDone ==> ownsEphemeral && rpc in network.down)
      && (needsIntervention ==> ephemeralRespawnDone)
    }

    function Rules(): Policy { Policy(ownsEphemeral, target.LocalSocket?, MayProbe(), Period()) }

    predicate MayProbe() {
      target.Wss? && target.route.reprobeSecs > 0 && target.route.hasDirect
    }

    function Period(): nat { if target.Wss? then 1000 * target.route.reprobeSecs else 0 }

    constructor (network: Network, target: ConnectTarget, ownsEphemeral: bool, rpc: Client, initialLeg: ActiveLeg)
      requires rpc in network.dialled && network.dialled[rpc] == initialLeg && Dialable(target, initialLeg)
      ensures Valid(AskStatus) && this.network == network && this.target == target && this.rpc == rpc
      ensures trace == [] && first == Start(rpc, initialLeg) && this.ownsEphemeral == ownsEphemeral
    {
      this.network, this.target, this.ownsEphemeral := network, target, ownsEphemeral;
      this.rpc, panes, activeLeg := rpc, rpc, initialLeg;
      reconnectLastAttempt, reconnectAttempt := None, false;
      ephemeralRespawnDone, needsIntervention := false, false;
      reprobeLastAttempt, directReprobeAttempt := None, false;
      first, before := Start(rpc, initialLeg), network.answers;
      trace, turns := [], 0;
      new;
      assert network.answers + [] == network.answers;
    }

    /** A lawful trace, one action later. */
    lemma Follow(t: seq<Action>, m: Memory, a: Action)
      requires Remember(t, first, Rules()) == Some(m) && Fulfils(m.duty, a) && Fresh(t, first.client)
      requires a.Installed? ==> a.client != first.client && a.client !in InstalledIn(t)
      ensures Remember(t + [a], first, Rules()) == Some(After(m, a, Rules())) && Fresh(t + [a], first.client)
      ensures HeardIn(t + [a]) == HeardIn(t) + (if a.Heard? then [a.answer] else [])
      ensures InstalledIn(t + [a]) == InstalledIn(t) + (if a.Installed? then {a.client} else {})
    {
      hide After, Fulfils, Fresh, InstalledIn;
      TraceSnoc(t, a, first, Rules());
      FreshSnoc(t, a, first.client);
      InstalledSnoc(t, a);
    }

    /** The client is installed and the panes are rebuilt on it. */
    lemma FollowInstall(t: seq<Action>, m: Memory, made: Client, leg: ActiveLeg, recovers: bool, built: bool)
      requires Remember(t, first, Rules()) == Some(m) && m.duty == Install(made, leg, recovers)
      requires Fresh(t, first.client) && made != first.client && made !in InstalledIn(t)
      ensures var t' := t + [Installed(made)] + [Heard(Panes(built))];
        && Remember(t', first, Rules())
          == Some(m.(duty := if built then Adopt(made, leg, recovers) else Retire(made)))
        && Fresh(t', first.client) && HeardIn(t') == HeardIn(t) + [Panes(built)]
        && InstalledIn(t') == InstalledIn(t) + {made}
    {
      hide Fresh, InstalledIn, Remember, HeardIn, Adopted, Rules;
      Follow(t, m, Installed(made));
      Follow(t + [Installed(made)], m.(duty := Build(made, leg, recovers)), Heard(Panes(built)));
    }

    /** A whole adoption: the client is installed, the panes are rebuilt on it, and whichever is left is shut down. */
    lemma FollowAdoption(t: seq<Action>, m: Memory, made: Client, leg: ActiveLeg, recovers: bool, built: bool)
      requires Remember(t, first, Rules()) == Some(m) && m.duty == Install(made, leg, recovers)
      requires Fresh(t, first.client) && made != first.client && made !in InstalledIn(t)
      ensures var t' := t + Adoption(made, m.client, recovers, built);
        && Remember(t', first, Rules())
          == Some((if built then Adopted(m, made, leg, recovers) else m).(duty := AskStatus))
        && Fresh(t', first.client) && HeardIn(t') == HeardIn(t) + [Panes(built)]
        && InstalledIn(t') == InstalledIn(t) + {made}
    {
      hide Fresh, InstalledIn, Remember, HeardIn, Adopted, Rules, Learnt, Answers;
      var t2 := t + [Installed(made)] + [Heard(Panes(built))];
      FollowInstall(t, m, made, leg, recovers, built);
      if built {
        var m2 := m.(duty := Adopt(made, leg, recovers));
        var success := if recovers then Recovered(made) else Migrated(made);
        Follow(t2, m2, success);
        Follow(t2 + [success], Adopted(m2, made, leg, recovers).(duty := Retire(m.client)), ShutDown(m.client));
        AdoptedDuty(m, m2.duty, made, leg, recovers);
        assert t2 + [success] + [ShutDown(m.client)] == t + Adoption(made, m.client, recovers, built);
      } else {
        Follow(t2, m.(duty := Retire(made)), ShutDown(made));
        assert t2 + [ShutDown(made)] == t + Adoption(made, m.client, recovers, built);
      }
    }

    lemma AdoptedDuty(m: Memory, duty: Duty, made: Client, leg: ActiveLeg, recovers: bool)
      ensures Adopted(m.(duty := duty), made, leg, recovers).(duty := AskStatus)
        == Adopted(m, made, leg, recovers).(duty := AskStatus)
    {
    }

    /**
     Rebuilds the panes against `newClient`. Transactional: on a failed rebuild the previous client is back in place.
     Whichever client is left out is shut down.
     */
    method AdoptClient(newClient: Client, ghost leg: ActiveLeg, ghost recovers: bool) returns (adopted: bool)
      requires Valid(Install(newClient, leg, recovers))
      requires newClient != first.client && newClient !in InstalledIn(trace) && newClient in network.dialled
      modifies this`rpc, this`panes, this`trace, network`now, network`answers
      ensures network.now >= old(network.now) && network.answers == old(network.answers) + [Panes(adopted)]
      ensures rpc == panes == if adopted then newClient else old(rpc)
      ensures trace == old(trace) + Adoption(newClient, old(rpc), recovers, adopted)
      ensures var m := old(State(Install(newClient, leg, recovers)));
        Remember(trace, first, Rules())
          == Some((if adopted then Adopted(m, newClient, leg, recovers) else m).(duty := AskStatus))
      ensures Fresh(trace, first.client) && network.answers == before + HeardIn(trace)
      ensures InstalledIn(trace) == InstalledIn(old(trace)) + {newClient}
    {
      hide Remember, Fresh, InstalledIn, HeardIn, Adopted;
      ghost var m := State(Install(newClient, leg, recovers));
      var previous := rpc;
      rpc := newClient;
      trace := trace + [Installed(newClient)];
      adopted := network.BuildPanes();
      trace := trace + [Heard(Panes(adopted))];
      if adopted {
        panes := rpc;
        trace := trace + [if recovers then Recovered(newClient) else Migrated(newClient)] + [ShutDown(previous)];
      } else {
        var abandoned := rpc;
        rpc := previous;
        trace := trace + [ShutDown(abandoned)];
      }
      assert trace == old(trace) + Adoption(newClient, previous, recovers, adopted);
      FollowAdoption(old(trace), m, newClient, leg, recovers, adopted);
      assert old(network.answers) + [Panes(adopted)] == before + (HeardIn(old(trace)) + [Panes(adopted)]);
    }

    /** At most one respawn per disconnected episode, and only of a daemon this session owns. */
    method RespawnOnce()
      requires Valid(DownDuty(State(AskStatus), Rules())) && rpc in network.down
      modifies this`ephemeralRespawnDone, this`trace
      ensures Valid(AskTime) && ephemeralRespawnDone == ownsEphemeral
      ensures trace == old(trace)
        + if ownsEphemeral && target.LocalSocket? && !old(ephemeralRespawnDone) then [Respawned] else []
    {
      hide Remember, Fresh, InstalledIn, HeardIn;
      if ownsEphemeral && !ephemeralRespawnDone {
        ephemeralRespawnDone := true;
        if target.LocalSocket? {
          Follow(trace, old(State(Respawn)), Respawned);
          trace := trace + [Respawned];
        }
      }
    }

    method StartReconnectIfDue()
      requires Valid(AskTime) && rpc in network.down
      modifies this`reconnectAttempt, this`reconnectLastAttempt, this`trace, network`now, network`answers
      ensures Valid(if reconnectAttempt then PollReconnect else AskStatusAgain) && network.now >= old(network.now)
      ensures var due := !old(reconnectAttempt)
        && Elapsed(old(reconnectLastAttempt), network.now, RECONNECT_INTERVAL);
        && reconnectAttempt == (old(reconnectAttempt) || due)
        && reconnectLastAttempt == (if due then Some(network.now) else old(reconnectLastAttempt))
        && trace == old(trace) + [Heard(Time(network.now))]
          + if due then [ReconnectStarted(network.now)] else []
    {
      hide Remember, Fresh, InstalledIn, HeardIn;
      var now := network.Clock();
      Hear(Time(now), AskTime);
      if !reconnectAttempt && (reconnectLastAttempt.None? || now - reconnectLastAttempt.value >= RECONNECT_INTERVAL) {
        Follow(trace, State(StartReconnect(now)), ReconnectStarted(now));
        trace := trace + [ReconnectStarted(now)];
        reconnectLastAttempt := Some(now);
        reconnectAttempt := true;
      }
    }

    /** Notes an answer that was due. */
    ghost method Hear(answer: Answer, duty: Duty)
      requires Remember(trace, first, Rules()) == Some(State(duty)) && Fulfils(duty, Heard(answer))
      requires Fresh(trace, first.client) && network.answers == before + HeardIn(trace) + [answer]
      modifies this`trace
      ensures trace == old(trace) + [Heard(answer)]
      ensures Remember(trace, first, Rules()) == Some(After(old(State(duty)), Heard(answer), Rules()))
      ensures Fresh(trace, first.client) && network.answers == before + HeardIn(trace)
      ensures InstalledIn(trace) == InstalledIn(old(trace))
    {
      hide Remember, Fresh, InstalledIn, HeardIn, After, Fulfils;
      Follow(trace, State(duty), Heard(answer));
      trace := trace + [Heard(answer)];
    }

    method StartReprobeIfDue()
      requires Valid(AskTimeOnRelay) && activeLeg == WssRelay && MayProbe()
      modifies this`directReprobeAttempt, this`reprobeLastAttempt, this`trace, network`now, network`answers
      ensures Valid(if directReprobeAttempt then PollReprobe else AskStatus) && network.now >= old(network.now)
      ensures var due := !old(directReprobeAttempt) && Elapsed(old(reprobeLastAttempt), network.now, Period());
        && directReprobeAttempt == (old(directReprobeAttempt) || due)
        && reprobeLastAttempt == (if due then Some(network.now) else old(reprobeLastAttempt))
        && trace == old(trace) + [Heard(Time(network.now))]
          + if due then [ReprobeStarted(network.now)] else []
    {
      hide Remember, Fresh, InstalledIn, HeardIn;
      var now := network.Clock();
      Hear(Time(now), AskTimeOnRelay);
      if !directReprobeAttempt
        && (reprobeLastAttempt.None? || now - reprobeLastAttempt.value >= 1000 * target.route.reprobeSecs)
      {
        Follow(trace, State(StartReprobe(now)), ReprobeStarted(now));
        trace := trace + [ReprobeStarted(now)];
        reprobeLastAttempt := Some(now);
        directReprobeAttempt := true;
      }
    }

    /** The running attempt is polled: its client is adopted, or a permitted respawn that did not help is noted. */
    method FinishReconnect() returns (again: bool)
      requires Valid(PollReconnect) && reconnectAttempt && !directReprobeAttempt
      requires ephemeralRespawnDone == ownsEphemeral
      modifies this, network
      ensures Valid(if again then AskStatus else AskStatusAgain) && turns == old(turns) && old(trace) < trace
      ensures network.Evolved(old(network.now), old(network.down), old(network.dialled))
      ensures network.down == old(network.down)
      ensures trace[|old(trace)|].Heard? && trace[|old(trace)|].answer.Reconnect?
      // The iteration starts over exactly when the attempt has ended with a client, adopted or not.
      ensures var ending := trace[|old(trace)|].answer.ending;
        && again == ending.Connected?
        && reconnectAttempt == ending.Unfinished?
        && (rpc != old(rpc) ==> again && rpc == ending.client && activeLeg == ending.leg)
        && (!again ==> needsIntervention == (old(needsIntervention) || (ending.Failed? && ownsEphemeral)))
      ensures rpc != old(rpc) ==> !ephemeralRespawnDone && !needsIntervention && reconnectLastAttempt == None
      ensures rpc == old(rpc) ==> activeLeg == old(activeLeg) && reconnectLastAttempt == old(reconnectLastAttempt)
      ensures !directReprobeAttempt
    {
      hide Remember, Fresh, InstalledIn, HeardIn, Dialable;
      var ending := network.TakeReconnect(target);
      Hear(Answer.Reconnect(ending), PollReconnect);
      match ending {
        case Unfinished =>
          again := false;
        case Failed =>
          reconnectAttempt := false;
          if ownsEphemeral && ephemeralRespawnDone {
            needsIntervention := true;
          }
          again := false;
        case Connected(newClient, leg) =>
          reconnectAttempt := false;
          AdoptRecovered(newClient, leg);
          again := true;
      }
    }

    /** A reconnect may land on a different leg than the one that dropped; the leg is committed with the panes. */
    method AdoptRecovered(newClient: Client, leg: ActiveLeg)
      requires Valid(Install(newClient, leg, true)) && !reconnectAttempt && !directReprobeAttempt && rpc in network.down
      requires newClient != first.client && newClient !in InstalledIn(trace) && newClient !in network.down
      requires newClient in network.dialled && network.dialled[newClient] == leg && Dialable(target, leg)
      modifies this, network`now, network`answers
      ensures Valid(AskStatus) && turns == old(turns) && network.now >= old(network.now)
      ensures exists built :: (
        && trace == old(trace) + Adoption(newClient, old(rpc), true, built)
        && rpc == (if built then newClient else old(rpc)) && activeLeg == (if built then leg else old(activeLeg)))
      ensures !reconnectAttempt && !directReprobeAttempt
      ensures rpc != old(rpc) ==> !ephemeralRespawnDone && !needsIntervention && reconnectLastAttempt == None
      ensures rpc == old(rpc) ==> reconnectLastAttempt == old(reconnectLastAttempt)
    {
      hide Remember, Fresh, InstalledIn, HeardIn, Dialable, Adoption;
      var adopted := AdoptClient(newClient, leg, true);
      activeLeg := LegAfterAdoption(adopted, activeLeg, leg);
      if adopted {
        reconnectLastAttempt := None;
        ephemeralRespawnDone := false;
        needsIntervention := false;
      }
    }

    /** The running probe is polled: its client is adopted if it got through. */
    method FinishReprobe() returns (again: bool)
      requires Valid(PollReprobe) && directReprobeAttempt && rpc !in network.down
      modifies this, network
      ensures Valid(AskStatus) && turns == old(turns) && old(trace) < trace
      ensures network.Evolved(old(network.now), old(network.down), old(network.dialled))
      ensures network.down == old(network.down)
      ensures trace[|old(trace)|].Heard? && trace[|old(trace)|].answer.Reprobe?
      ensures var ending := trace[|old(trace)|].answer.ending;
        && again == ending.Connected?
        && directReprobeAttempt == ending.Unfinished?
        && (rpc != old(rpc) ==> again && rpc == ending.client && activeLeg == WssDirect)
      ensures rpc == old(rpc) ==> activeLeg == old(activeLeg)
      ensures reconnectLastAttempt == old(reconnectLastAttempt) && ephemeralRespawnDone == old(ephemeralRespawnDone)
    {
      hide Remember, Fresh, InstalledIn, HeardIn, Dialable;
      var ending := network.TakeReprobe();
      Hear(Reprobe(ending), PollReprobe);
      match ending {
        case Unfinished =>
          again := false;
        case Failed =>
          directReprobeAttempt := false;
          again := false;
        case Connected(direct, _) =>
          directReprobeAttempt := false;
          AdoptMigrated(direct);
          again := true;
      }
    }

    /** A probe that connects but cannot be adopted leaves the session on the relay, still looking for a way back. */
    method AdoptMigrated(direct: Client)
      requires Valid(Install(direct, WssDirect, false)) && !directReprobeAttempt && !reconnectAttempt
      requires !ephemeralRespawnDone && MayProbe()
      requires direct != first.client && direct !in InstalledIn(trace)
      requires direct in network.dialled && network.dialled[direct] == WssDirect
      modifies this, network`now, network`answers
      ensures Valid(AskStatus) && turns == old(turns) && network.now >= old(network.now)
      ensures exists built :: (
        && trace == old(trace) + Adoption(direct, old(rpc), false, built)
        && rpc == (if built then direct else old(rpc)) && activeLeg == (if built then WssDirect else old(activeLeg)))
      ensures !directReprobeAttempt && !reconnectAttempt && !ephemeralRespawnDone
      ensures reconnectLastAttempt == old(reconnectLastAttempt)
    {
      hide Remember, Fresh, InstalledIn, HeardIn, Adoption;
      var adopted := AdoptClient(direct, WssDirect, false);
      activeLeg := LegAfterAdoption(adopted, activeLeg, WssDirect);
    }

    /** What one iteration does about a session that is down. */
    method Reconnect() returns (again: bool)
      requires Valid(DownDuty(State(AskStatus), Rules())) && rpc in network.down && !directReprobeAttempt
      modifies this, network
      ensures Valid(if again then AskStatus else AskStatusAgain) && turns == old(turns) && old(trace) <= trace
      ensures network.Evolved(old(network.now), old(network.down), old(network.dialled))
      ensures network.down == old(network.down)
      ensures rpc != old(rpc) ==> again && !ephemeralRespawnDone && !needsIntervention && reconnectLastAttempt == None
      ensures !directReprobeAttempt
    {
      hide Remember, Fresh, InstalledIn, HeardIn, Dialable;
      RespawnOnce();
      StartReconnectIfDue();
      if reconnectAttempt {
        again := FinishReconnect();
      } else {
        again := false;
      }
    }

    /** The recovery half of an iteration; true when the loop starts over. */
    method Recover() returns (again: bool)
      requires Valid(AskStatus)
      modifies this, network
      ensures Valid(if again then AskStatus else AskStatusAgain) && turns == old(turns) + 1
      ensures network.Evolved(old(network.now), old(network.down), old(network.dialled))
      ensures old(trace) + [Heard(Status(old(rpc) in network.down))] <= trace
      // A live session is left alone.
      ensures old(rpc) !in network.down ==>
        trace == old(trace) + [Heard(Status(false))] && rpc == old(rpc) && !again
      // A pending probe does not outlive a disconnect, and the client changes only by a recovery.
      ensures old(rpc) in network.down ==> !directReprobeAttempt
      ensures rpc != old(rpc) ==> again && !ephemeralRespawnDone && !needsIntervention && reconnectLastAttempt == None
    {
      hide Remember, Fresh, InstalledIn, HeardIn, Dialable;
      var disconnected := network.Disconnected(rpc);
      Hear(Status(disconnected), AskStatus);
      turns := turns + 1;
      if !disconnected {
        return false;
      }
      directReprobeAttempt := false;
      again := Reconnect();
    }

    /** The migration half of an iteration; true when the loop starts over. */
    method Migrate() returns (again: bool)
      requires Valid(AskStatusAgain)
      modifies this, network
      ensures Valid(AskStatus) && turns == old(turns)
      ensures network.Evolved(old(network.now), old(network.down), old(network.dialled))
      ensures old(trace) + [Heard(Status(old(rpc) in network.down))] <= trace
      // It looks at the clock exactly when there is a direct path to probe and probing is on.
      ensures (|trace| > |old(trace)| + 1 && trace[|old(trace)| + 1].Heard? && trace[|old(trace)| + 1].answer.Time?)
        <==> (old(rpc) !in network.down && old(activeLeg) == WssRelay
              && target.Wss? && target.route.reprobeSecs > 0 && target.route.hasDirect)
      // Only a session on the relay, with a direct address to go back to, ever moves; and it moves to the direct leg.
      ensures rpc != old(rpc) ==> again && old(activeLeg) == WssRelay && MayProbe() && activeLeg == WssDirect
      ensures rpc == old(rpc) ==> activeLeg == old(activeLeg)
      ensures reconnectLastAttempt == old(reconnectLastAttempt) && ephemeralRespawnDone == old(ephemeralRespawnDone)
    {
      hide Remember, Fresh, InstalledIn, HeardIn, Dialable;
      var disconnected := network.Disconnected(rpc);
      Hear(Status(disconnected), AskStatusAgain);
      var allowed := !disconnected && activeLeg == WssRelay && MayProbe();
      if !allowed {
        directReprobeAttempt := false;
        return false;
      }
      StartReprobeIfDue();
      if directReprobeAttempt {
        again := FinishReprobe();
        return again;
      }
      return false;
    }

    /**
     Any number of iterations of the event loop; terminal input is handled between them. Every action on the way is the
     one the history before it called for.
     */
    method Run(iterations: nat)
      requires Valid(AskStatus)
      modifies this, network
      ensures Valid(AskStatus) && turns == old(turns) + iterations && old(trace) <= trace
      ensures Completed(trace, first, Rules())
      ensures ReconnectsSpaced(trace) && ReprobesSpaced(trace, Period()) && OneRespawnPerEpisode(trace)
      ensures ShutDownOnce(trace, first.client, {rpc})
    {
      hide Remember, Fresh, InstalledIn, HeardIn, Dialable, ReconnectsSpaced, ReprobesSpaced, OneRespawnPerEpisode;
      hide ShutDownOnce;
      var done := 0;
      while done < iterations
        invariant Valid(AskStatus) && done <= iterations && turns == old(turns) + done && old(trace) <= trace
      {
        var again := Recover();
        if !again {
          again := Migrate();
          if !again {
            network.Pass();
          }
        }
        done := done + 1;
      }
      Conclude();
    }

    /** What a lawful trace implies, whatever the environment answered. */
    lemma Conclude()
      requires Valid(AskStatus)
      ensures ReconnectsSpaced(trace) && ReprobesSpaced(trace, Period()) && OneRespawnPerEpisode(trace)
      ensures ShutDownOnce(trace, first.client, {rpc})
    {
      hide Remember, Fresh, InstalledIn, HeardIn, Dialable, ReconnectsSpaced, ReprobesSpaced, OneRespawnPerEpisode;
      hide ShutDownOnce;
      RunThrottled(trace, first, Rules());
      RunRespawns(trace, first, Rules());
      RunShutsDown(trace, first, Rules());
      assert {rpc} + BetweenClients(AskStatus) == {rpc};
    }
  }

}
