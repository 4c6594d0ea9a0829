/**
 Histories of the TUI's event loop (`backend/apps/omnescode/src/app.rs`, `run`): what the environment answered and what
 the loop did about it, in order. The loop's policy is a function of the history alone: after each step there is one
 thing due next. What follows for whole runs is proved here, for every history in which the loop did just that.
 */
module ConnectionHistory {
  import opened Wrappers

  /** Instants are in milliseconds. */
  type Instant = nat

  const RECONNECT_INTERVAL: nat := 1000

  datatype ActiveLeg = Local | WssDirect | WssRelay

  type Client = nat

  /** What a connection task has to show when it is polled. */
  datatype Ending = Unfinished | Failed | Connected(client: Client, leg: ActiveLeg)

  /** What the loop learns from outside. */
  datatype Answer =
    | Status(down: bool)
    | Time(now: Instant)
    | Reconnect(ending: Ending)
    | Reprobe(ending: Ending)
    | Panes(built: bool)

  datatype Action =
    | Heard(answer: Answer)
    | Respawned
    | ReconnectStarted(at: Instant)
    | ReprobeStarted(at: Instant)
    | Installed(client: Client)
    | Recovered(client: Client)
    | Migrated(client: Client)
    | ShutDown(client: Client)

  function HeardIn(trace: seq<Action>): seq<Answer> {
    if trace == [] then []
    else HeardIn(trace[..|trace| - 1]) + match trace[|trace| - 1] { case Heard(answer) => [answer] case _ => [] }
  }

  // ----- The policy -----

  /** What does not change during a run. */
  datatype Policy = Policy(ownsEphemeral: bool, local: bool, mayProbe: bool, period: nat)

  /** The one thing the loop does next. */
  datatype Duty =
    | AskStatus
    | Respawn
    | AskTime
    | StartReconnect(now: Instant)
    | PollReconnect
    | AskStatusAgain
    | AskTimeOnRelay
    | StartReprobe(now: Instant)
    | PollReprobe
    | Install(client: Client, leg: ActiveLeg, recovers: bool)
    | Build(client: Client, leg: ActiveLeg, recovers: bool)
    | Adopt(client: Client, leg: ActiveLeg, recovers: bool)
    | Retire(client: Client)

  /** What a history comes to. `turns` counts iterations. */
  datatype Memory = Memory(
    client: Client,
    leg: ActiveLeg,
    reconnectLast: Option<Instant>,
    reconnecting: bool,
    reprobeLast: Option<Instant>,
    reprobing: bool,
    respawned: bool,
    flagged: bool,
    turns: nat,
    duty: Duty
  )

  function Start(client: Client, leg: ActiveLeg): Memory {
    Memory(client, leg, None, false, None, false, false, false, 0, AskStatus)
  }

  predicate Elapsed(last: Option<Instant>, now: Instant, period: nat) {
    last.None? || now >= last.value + period
  }

  /** The answer is to the question due. */
  predicate Answers(duty: Duty, answer: Answer) {
    match duty
    case AskStatus => answer.Status?
    case AskTime => answer.Time?
    case PollReconnect => answer.Reconnect?
    case AskStatusAgain => answer.Status?
    case AskTimeOnRelay => answer.Time?
    case PollReprobe => answer.Reprobe?
    case Build(_, _, _) => answer.Panes?
    case _ => false
  }

  /** The action is the one due. */
  predicate Fulfils(duty: Duty, a: Action) {
    if a.Heard? then Answers(duty, a.answer)
    else
      match duty
      case Respawn => a == Respawned
      case StartReconnect(now) => a == ReconnectStarted(now)
      case StartReprobe(now) => a == ReprobeStarted(now)
      case Install(client, _, _) => a == Installed(client)
      case Adopt(client, _, recovers) => a == if recovers then Recovered(client) else Migrated(client)
      case Retire(client) => a == ShutDown(client)
      case _ => false
  }

  /** What is due in a session just found down. */
  function DownDuty(m: Memory, p: Policy): Duty {
    if p.ownsEphemeral && p.local && !m.respawned then Respawn else AskTime
  }

  /** What is due once the clock has been read in a session that is down. */
  function ReconnectDuty(m: Memory, now: Instant): Duty {
    if m.reconnecting then PollReconnect
    else if Elapsed(m.reconnectLast, now, RECONNECT_INTERVAL) then StartReconnect(now)
    else AskStatusAgain
  }

  function ReprobeDuty(m: Memory, now: Instant, p: Policy): Duty {
    if m.reprobing then PollReprobe
    else if Elapsed(m.reprobeLast, now, p.period) then StartReprobe(now)
    else AskStatus
  }

  /** The session on its new client; a recovery ends the disconnected episode. */
  function Adopted(m: Memory, client: Client, leg: ActiveLeg, recovers: bool): Memory {
    var moved := m.(client := client, leg := leg);
    if recovers then moved.(reconnectLast := None, respawned := false, flagged := false) else moved
  }

  /** What an answer makes due, and what it changes. */
  function Learnt(m: Memory, answer: Answer, p: Policy): Memory
    requires Answers(m.duty, answer)
  {
    match m.duty
    case AskStatus =>
      var known := m.(turns := m.turns + 1, reprobing := m.reprobing && !answer.down);
      known.(duty := if !answer.down then AskStatusAgain else DownDuty(m, p))
    case AskTime => m.(duty := ReconnectDuty(m, answer.now))
    case PollReconnect =>
      (match answer.ending
       case Unfinished => m.(duty := AskStatusAgain)
       case Failed => m.(reconnecting := false, flagged := m.flagged || p.ownsEphemeral, duty := AskStatusAgain)
       case Connected(client, leg) => m.(reconnecting := false, duty := Install(client, leg, true)))
    case AskStatusAgain =>
      if !answer.down && m.leg == WssRelay && p.mayProbe then m.(duty := AskTimeOnRelay)
      else m.(reprobing := false, duty := AskStatus)
    case AskTimeOnRelay => m.(duty := ReprobeDuty(m, answer.now, p))
    case PollReprobe =>
      (match answer.ending
       case Unfinished => m.(duty := AskStatus)
       case Failed => m.(reprobing := false, duty := AskStatus)
       case Connected(client, leg) => m.(reprobing := false, duty := Install(client, leg, false)))
    case Build(client, leg, recovers) =>
      m.(duty := if answer.built then Adopt(client, leg, recovers) else Retire(client))
  }

  /** What a history comes to after one more action, the one that was due. */
  function After(m: Memory, a: Action, p: Policy): Memory
    requires Fulfils(m.duty, a)
  {
    if a.Heard? then Learnt(m, a.answer, p)
    else
      match m.duty
      case Respawn => m.(respawned := true, duty := AskTime)
      case StartReconnect(now) => m.(reconnectLast := Some(now), reconnecting := true, duty := PollReconnect)
      case StartReprobe(now) => m.(reprobeLast := Some(now), reprobing := true, duty := PollReprobe)
      case Install(client, leg, recovers) => m.(duty := Build(client, leg, recovers))
      case Adopt(client, leg, recovers) => Adopted(m, client, leg, recovers).(duty := Retire(m.client))
      case Retire(_) => m.(duty := AskStatus)
  }

  /** What a history comes to, if every action in it was the one due. */
  function Remember(trace: seq<Action>, start: Memory, p: Policy): Option<Memory> {
    if trace == [] then Some(start)
    else
      var (before, a) := (Remember(trace[..|trace| - 1], start, p), trace[|trace| - 1]);
      if before.Some? && Fulfils(before.value.duty, a) then Some(After(before.value, a, p)) else None
  }

  lemma TraceSnoc(trace: seq<Action>, a: Action, start: Memory, p: Policy)
    ensures var before := Remember(trace, start, p);
      Remember(trace + [a], start, p)
        == if before.Some? && Fulfils(before.value.duty, a) then Some(After(before.value, a, p)) else None
    ensures HeardIn(trace + [a]) == HeardIn(trace) + (if a.Heard? then [a.answer] else [])
  {
    hide After, Fulfils;
    assert (trace + [a])[..|trace|] == trace;
  }

  /** The last action of a run was due after those before it. */
  lemma LastStep(trace: seq<Action>, start: Memory, p: Policy)
    requires trace != [] && Remember(trace, start, p).Some?
    ensures var (earlier, a) := (trace[..|trace| - 1], trace[|trace| - 1]);
      && trace == earlier + [a]
      && Remember(earlier, start, p).Some? && Fulfils(Remember(earlier, start, p).value.duty, a)
      && Remember(trace, start, p).value == After(Remember(earlier, start, p).value, a, p)
  {
    hide After, Fulfils;
    TraceSnoc(trace[..|trace| - 1], trace[|trace| - 1], start, p);
    hide Remember;
    assert trace == trace[..|trace| - 1] + [trace[|trace| - 1]];
  }

  /** What an adoption adds to a trace. */
  function Adoption(made: Client, previous: Client, recovers: bool, built: bool): seq<Action> {
    [Installed(made), Heard(Panes(built))]
    + if built then [if recovers then Recovered(made) else Migrated(made), ShutDown(previous)] else [ShutDown(made)]
  }

  // ----- Properties of a trace -----

  /** No recovery between the two positions. */
  ghost predicate NoRecovery(trace: seq<Action>, i: int, j: int) {
    forall k | i < k < j && 0 <= k < |trace| :: !trace[k].Recovered?
  }

  /** Within one disconnected episode, reconnects start at least the throttle interval apart. */
  ghost predicate ReconnectsSpaced(trace: seq<Action>) {
    forall i, j | 0 <= i < j < |trace| && trace[i].ReconnectStarted? && trace[j].ReconnectStarted?
      && NoRecovery(trace, i, j) :: trace[j].at >= trace[i].at + RECONNECT_INTERVAL
  }

  /** Probes of the direct path are never closer than the configured period. */
  ghost predicate ReprobesSpaced(trace: seq<Action>, period: nat) {
    forall i, j | 0 <= i < j < |trace| && trace[i].ReprobeStarted? && trace[j].ReprobeStarted? ::
      trace[j].at >= trace[i].at + period
  }

  /** Between two respawns the session has recovered. */
  ghost predicate OneRespawnPerEpisode(trace: seq<Action>) {
    forall i, j | 0 <= i < j < |trace| && trace[i].Respawned? && trace[j].Respawned? :: !NoRecovery(trace, i, j)
  }

  function ShutDownCount(trace: seq<Action>, client: Client): nat {
    if trace == [] then 0
    else
      ShutDownCount(trace[..|trace| - 1], client) + (if trace[|trace| - 1] == ShutDown(client) then 1 else 0)
  }

  function InstalledIn(trace: seq<Action>): set<Client> {
    set k | 0 <= k < |trace| && trace[k].Installed? :: trace[k].client
  }

  lemma CountSnoc(trace: seq<Action>, a: Action, client: Client)
    ensures ShutDownCount(trace + [a], client)
      == ShutDownCount(trace, client) + (if a == ShutDown(client) then 1 else 0)
  {
    assert (trace + [a])[..|trace|] == trace;
  }

  lemma InstalledSnoc(trace: seq<Action>, a: Action)
    ensures InstalledIn(trace + [a]) == InstalledIn(trace) + (if a.Installed? then {a.client} else {})
  {
    var longer := trace + [a];
    forall c | c in InstalledIn(trace) ensures c in InstalledIn(longer) {
      var k :| 0 <= k < |trace| && trace[k].Installed? && trace[k].client == c;
      assert longer[k] == trace[k];
    }
    if a.Installed? {
      assert longer[|trace|] == a;
    }
  }

  lemma NoRecoverySnoc(trace: seq<Action>, a: Action, i: nat)
    requires i < |trace|
    ensures NoRecovery(trace + [a], i, |trace| + 1) <==> NoRecovery(trace, i, |trace|) && !a.Recovered?
    ensures forall j | i < j <= |trace| :: NoRecovery(trace + [a], i, j) <==> NoRecovery(trace, i, j)
  {
    var longer := trace + [a];
    assert longer[|trace|] == a;
    assert forall k | 0 <= k < |trace| :: longer[k] == trace[k];
  }

  // ----- Throttles -----

  /** The throttles of both connection attempts, read off the trace. */
  ghost predicate Throttled(trace: seq<Action>, period: nat, reconnectLast: Option<Instant>,
      reprobeLast: Option<Instant>)
  {
    && ReconnectsSpaced(trace)
    && ReprobesSpaced(trace, period)
    && (forall i | 0 <= i < |trace| && trace[i].ReconnectStarted? && NoRecovery(trace, i, |trace|) ::
          reconnectLast.Some? && trace[i].at <= reconnectLast.value)
    && (forall i | 0 <= i < |trace| && trace[i].ReprobeStarted? ::
          reprobeLast.Some? && trace[i].at <= reprobeLast.value)
  }

  lemma ReconnectsSpacedSnoc(trace: seq<Action>, a: Action)
    requires ReconnectsSpaced(trace)
    requires a.ReconnectStarted? ==>
      forall i | 0 <= i < |trace| && trace[i].ReconnectStarted? && NoRecovery(trace, i, |trace|) ::
      a.at >= trace[i].at + RECONNECT_INTERVAL
    ensures ReconnectsSpaced(trace + [a])
  {
    var longer := trace + [a];
    forall i, j | 0 <= i < j < |longer| && longer[i].ReconnectStarted? && longer[j].ReconnectStarted?
      && NoRecovery(longer, i, j)
      ensures longer[j].at >= longer[i].at + RECONNECT_INTERVAL
    {
      NoRecoverySnoc(trace, a, i);
      assert longer[i] == trace[i];
    }
  }

  /** How one more action moves the throttles: a start is remembered, a recovery clears the reconnect throttle. */
  lemma ThrottledSnoc(trace: seq<Action>, a: Action, period: nat, reconnectLast: Option<Instant>,
      reprobeLast: Option<Instant>)
    requires Throttled(trace, period, reconnectLast, reprobeLast)
    requires a.ReconnectStarted? ==> Elapsed(reconnectLast, a.at, RECONNECT_INTERVAL)
    requires a.ReprobeStarted? ==> Elapsed(reprobeLast, a.at, period)
    ensures Throttled(trace + [a], period,
      if a.Recovered? then None else if a.ReconnectStarted? then Some(a.at) else reconnectLast,
      if a.ReprobeStarted? then Some(a.at) else reprobeLast)
  {
    ReconnectsSpacedSnoc(trace, a);
    var longer := trace + [a];
    forall i | 0 <= i < |longer| && longer[i].ReconnectStarted? && NoRecovery(longer, i, |longer|)
      ensures !a.Recovered?
      ensures !a.ReconnectStarted? ==> reconnectLast.Some? && longer[i].at <= reconnectLast.value
      ensures a.ReconnectStarted? ==> longer[i].at <= a.at
    {
      if i < |trace| {
        NoRecoverySnoc(trace, a, i);
        assert longer[i] == trace[i];
      }
    }
  }

  /** An answer changes nothing but what is due and what is running. */
  lemma LearntKeeps(m: Memory, answer: Answer, p: Policy)
    requires Answers(m.duty, answer)
    ensures var m' := Learnt(m, answer, p);
      && m'.client == m.client && m'.leg == m.leg && m'.respawned == m.respawned
      && m'.reconnectLast == m.reconnectLast && m'.reprobeLast == m.reprobeLast
  {
    hide ReconnectDuty, ReprobeDuty, DownDuty;
  }

  lemma StepStarts(m: Memory, a: Action, p: Policy)
    requires Fulfils(m.duty, a)
    ensures var m' := After(m, a, p);
      && m'.reconnectLast
        == (if a.Recovered? then None else if a.ReconnectStarted? then Some(a.at) else m.reconnectLast)
      && m'.reprobeLast == (if a.ReprobeStarted? then Some(a.at) else m.reprobeLast)
      && (a.ReconnectStarted? ==> m.duty == StartReconnect(a.at))
      && (a.ReprobeStarted? ==> m.duty == StartReprobe(a.at))
  {
    hide Learnt, Answers;
    if a.Heard? {
      LearntKeeps(m, a.answer, p);
    }
  }

  lemma StepDue(m: Memory, a: Action, p: Policy)
    requires Fulfils(m.duty, a)
    ensures var m' := After(m, a, p);
      && (m'.duty.StartReconnect? ==> a.Heard? && m.duty.AskTime? && m'.duty == ReconnectDuty(m, a.answer.now))
      && (m'.duty.StartReprobe? ==> a.Heard? && m.duty.AskTimeOnRelay? && m'.duty == ReprobeDuty(m, a.answer.now, p))
  {
    hide Learnt, Answers;
    if a.Heard? {
      LearntDue(m, a.answer, p);
    }
  }

  lemma LearntDue(m: Memory, answer: Answer, p: Policy)
    requires Answers(m.duty, answer)
    ensures var m' := Learnt(m, answer, p);
      && (m'.duty.StartReconnect? ==> m.duty.AskTime? && m'.duty == ReconnectDuty(m, answer.now))
      && (m'.duty.StartReprobe? ==> m.duty.AskTimeOnRelay? && m'.duty == ReprobeDuty(m, answer.now, p))
      && (m'.duty.Respawn? ==> m.duty.AskStatus? && m'.duty == DownDuty(m, p))
  {
    hide Elapsed;
  }

  lemma StepThrottles(m: Memory, a: Action, p: Policy)
    requires Fulfils(m.duty, a)
    ensures var m' := After(m, a, p);
      && (m'.duty.StartReconnect? ==> Elapsed(m'.reconnectLast, m'.duty.now, RECONNECT_INTERVAL))
      && (m'.duty.StartReprobe? ==> Elapsed(m'.reprobeLast, m'.duty.now, p.period))
  {
    hide After, Fulfils, Elapsed;
    StepDue(m, a, p);
    StepStarts(m, a, p);
  }

  /** The throttles hold over every run. */
  lemma {:induction false} RunThrottled(trace: seq<Action>, start: Memory, p: Policy)
    requires Remember(trace, start, p).Some? && start.duty == AskStatus
    requires start.reconnectLast.None? && start.reprobeLast.None?
    ensures var m := Remember(trace, start, p).value;
      && Throttled(trace, p.period, m.reconnectLast, m.reprobeLast)
      && (m.duty.StartReconnect? ==> Elapsed(m.reconnectLast, m.duty.now, RECONNECT_INTERVAL))
      && (m.duty.StartReprobe? ==> Elapsed(m.reprobeLast, m.duty.now, p.period))
    decreases |trace|
  {
    hide Throttled, After, Fulfils;
    if trace == [] {
      NothingThrottled(p.period);
    } else {
      LastStep(trace, start, p);
      var (earlier, a) := (trace[..|trace| - 1], trace[|trace| - 1]);
      RunThrottled(earlier, start, p);
      var m := Remember(earlier, start, p).value;
      StepStarts(m, a, p);
      StepThrottles(m, a, p);
      ThrottledSnoc(earlier, a, p.period, m.reconnectLast, m.reprobeLast);
    }
  }

  lemma NothingThrottled(period: nat)
    ensures Throttled([], period, None, None)
  {
  }

  // ----- Episodes -----

  /** A respawn in the current episode is remembered, and only a session that may respawn has ever done so. */
  ghost predicate EpisodeTracked(trace: seq<Action>, mayRespawn: bool, respawned: bool) {
    && OneRespawnPerEpisode(trace)
    && (forall i | 0 <= i < |trace| && trace[i].Respawned? ::
          mayRespawn && (NoRecovery(trace, i, |trace|) ==> respawned))
  }

  lemma RespawnsSpacedSnoc(trace: seq<Action>, a: Action)
    requires OneRespawnPerEpisode(trace)
    requires a.Respawned? ==> forall i | 0 <= i < |trace| && trace[i].Respawned? :: !NoRecovery(trace, i, |trace|)
    ensures OneRespawnPerEpisode(trace + [a])
  {
    var longer := trace + [a];
    forall i, j | 0 <= i < j < |longer| && longer[i].Respawned? && longer[j].Respawned?
      ensures !NoRecovery(longer, i, j)
    {
      NoRecoverySnoc(trace, a, i);
      assert longer[i] == trace[i];
    }
  }

  /** How one more action moves the episode: a respawn is remembered, a recovery ends the episode. */
  lemma EpisodeSnoc(trace: seq<Action>, a: Action, mayRespawn: bool, respawned: bool)
    requires EpisodeTracked(trace, mayRespawn, respawned)
    requires a.Respawned? ==> mayRespawn && !respawned
    ensures EpisodeTracked(trace + [a], mayRespawn, a.Respawned? || (respawned && !a.Recovered?))
  {
    RespawnsSpacedSnoc(trace, a);
    var longer := trace + [a];
    forall i | 0 <= i < |longer| && longer[i].Respawned?
      ensures mayRespawn
      ensures NoRecovery(longer, i, |longer|) ==> a.Respawned? || (respawned && !a.Recovered?)
    {
      if i < |trace| {
        NoRecoverySnoc(trace, a, i);
        assert longer[i] == trace[i];
      }
    }
  }

  lemma StepEpisode(m: Memory, a: Action, p: Policy)
    requires Fulfils(m.duty, a)
    ensures var m' := After(m, a, p);
      && m'.respawned == (a.Respawned? || (m.respawned && !a.Recovered?))
      && (a.Respawned? ==> m.duty.Respawn?)
      && (m'.duty.Respawn? ==> p.ownsEphemeral && p.local && !m'.respawned)
  {
    hide Learnt, Answers;
    if a.Heard? {
      LearntDue(m, a.answer, p);
      LearntKeeps(m, a.answer, p);
    }
  }

  /** Over every run, only an owned local daemon is respawned, and once in an episode. */
  lemma {:induction false} RunRespawns(trace: seq<Action>, start: Memory, p: Policy)
    requires Remember(trace, start, p).Some? && start.duty == AskStatus
    ensures var m := Remember(trace, start, p).value;
      && EpisodeTracked(trace, p.ownsEphemeral && p.local, m.respawned)
      && (m.duty.Respawn? ==> p.ownsEphemeral && p.local && !m.respawned)
    decreases |trace|
  {
    hide EpisodeTracked, After, Fulfils;
    if trace == [] {
      NoEpisode(p.ownsEphemeral && p.local, start.respawned);
    } else {
      LastStep(trace, start, p);
      var (earlier, a) := (trace[..|trace| - 1], trace[|trace| - 1]);
      RunRespawns(earlier, start, p);
      StepEpisode(Remember(earlier, start, p).value, a, p);
      EpisodeSnoc(earlier, a, p.ownsEphemeral && p.local, Remember(earlier, start, p).value.respawned);
    }
  }

  lemma NoEpisode(mayRespawn: bool, respawned: bool)
    ensures EpisodeTracked([], mayRespawn, respawned)
  {
  }

  // ----- Clients -----

  /** Every client installed is a new one. */
  ghost predicate Fresh(trace: seq<Action>, first: Client) {
    forall i | 0 <= i < |trace| && trace[i].Installed? ::
      trace[i].client != first && trace[i].client !in InstalledIn(trace[..i])
  }

  lemma FreshSnoc(trace: seq<Action>, a: Action, first: Client)
    ensures Fresh(trace + [a], first)
      <==> Fresh(trace, first) && (a.Installed? ==> a.client != first && a.client !in InstalledIn(trace))
  {
    hide InstalledIn;
    var longer := trace + [a];
    assert forall i | 0 <= i < |trace| :: longer[i] == trace[i] && longer[..i] == trace[..i];
    assert longer[|trace|] == a && longer[..|trace|] == trace;
  }

  /** The client that is neither in use nor yet shut down, in the middle of an adoption. */
  function BetweenClients(duty: Duty): set<Client> {
    match duty
    case Build(client, _, _) => {client}
    case Adopt(client, _, _) => {client}
    case Retire(client) => {client}
    case _ => {}
  }

  /** Every client the session has had and no longer has was shut down exactly once, and no other was. */
  ghost predicate ShutDownOnce(trace: seq<Action>, first: Client, kept: set<Client>) {
    && kept <= InstalledIn(trace) + {first}
    && forall c :: ShutDownCount(trace, c) == if c in InstalledIn(trace) + {first} - kept then 1 else 0
  }

  lemma ShutDownOnceSnoc(trace: seq<Action>, a: Action, first: Client, kept: set<Client>)
    requires ShutDownOnce(trace, first, kept)
    requires a.Installed? ==> a.client !in InstalledIn(trace) + {first}
    requires a.ShutDown? ==> a.client in kept
    ensures ShutDownOnce(trace + [a], first,
      if a.Installed? then kept + {a.client} else if a.ShutDown? then kept - {a.client} else kept)
  {
    InstalledSnoc(trace, a);
    forall c { CountSnoc(trace, a, c); }
  }

  lemma StepClients(m: Memory, a: Action, p: Policy)
    requires Fulfils(m.duty, a) && m.client !in BetweenClients(m.duty)
    requires a.Installed? ==> a.client != m.client
    ensures var (m', kept) := (After(m, a, p), {m.client} + BetweenClients(m.duty));
      && m'.client !in BetweenClients(m'.duty)
      && {m'.client} + BetweenClients(m'.duty)
        == (if a.Installed? then kept + {a.client} else if a.ShutDown? then kept - {a.client} else kept)
      && (a.ShutDown? ==> a.client in kept)
  {
    hide After, Fulfils;
    StepSwaps(m, a, p);
    var m' := After(m, a, p);
    if m.duty.Adopt? {
      assert BetweenClients(m'.duty) == {m.client} && m'.client == m.duty.client;
    } else {
      assert m'.client == m.client;
    }
  }

  lemma StepSwaps(m: Memory, a: Action, p: Policy)
    requires Fulfils(m.duty, a)
    ensures var m' := After(m, a, p);
      && (if m.duty.Adopt? then m'.client == m.duty.client && m'.duty == Retire(m.client) else m'.client == m.client)
      && (a.Installed? <==> m.duty.Install?) && (a.ShutDown? <==> m.duty.Retire?)
      && (m.duty.Install? || m.duty.Retire? ==> m.duty.client == a.client)
      && (!m.duty.Adopt? ==>
          BetweenClients(m'.duty)
            == (if a.Installed? then {a.client} else if a.ShutDown? then {} else BetweenClients(m.duty)))
  {
    hide Learnt, Answers;
    if a.Heard? {
      LearntKeeps(m, a.answer, p);
      LearntBetween(m, a.answer, p);
    }
  }

  lemma LearntBetween(m: Memory, answer: Answer, p: Policy)
    requires Answers(m.duty, answer)
    ensures BetweenClients(Learnt(m, answer, p).duty) == BetweenClients(m.duty)
    ensures !m.duty.Adopt? && !m.duty.Install? && !m.duty.Retire?
  {
    hide Elapsed;
  }

  /** No client leaks over any run: outside an adoption, exactly the one in use has not been shut down. */
  lemma {:induction false} RunShutsDown(trace: seq<Action>, start: Memory, p: Policy)
    requires Remember(trace, start, p).Some? && start.duty == AskStatus && Fresh(trace, start.client)
    ensures var m := Remember(trace, start, p).value;
      && ShutDownOnce(trace, start.client, {m.client} + BetweenClients(m.duty))
      && m.client !in BetweenClients(m.duty)
    decreases |trace|
  {
    hide ShutDownOnce, Fresh, InstalledIn, After, Fulfils;
    if trace == [] {
      NothingShutDown(start.client);
    } else {
      LastStep(trace, start, p);
      var (earlier, a) := (trace[..|trace| - 1], trace[|trace| - 1]);
      FreshSnoc(earlier, a, start.client);
      RunShutsDown(earlier, start, p);
      var m := Remember(earlier, start, p).value;
      var kept := {m.client} + BetweenClients(m.duty);
      KeptInstalled(earlier, start.client, kept);
      StepClients(m, a, p);
      ShutDownOnceSnoc(earlier, a, start.client, kept);
    }
  }

  lemma NothingShutDown(first: Client)
    ensures ShutDownOnce([], first, {first} + BetweenClients(AskStatus))
  {
  }

  lemma KeptInstalled(trace: seq<Action>, first: Client, kept: set<Client>)
    requires ShutDownOnce(trace, first, kept)
    ensures kept <= InstalledIn(trace) + {first}
  {
  }

  // ----- Progress -----

  /** The run up to a position, and the step it takes there. */
  lemma {:induction false} StepAt(trace: seq<Action>, i: nat, start: Memory, p: Policy)
    requires i < |trace| && Remember(trace, start, p).Some?
    ensures var before := Remember(trace[..i], start, p);
      && before.Some? && Fulfils(before.value.duty, trace[i])
      && Remember(trace[..i + 1], start, p) == Some(After(before.value, trace[i], p))
    decreases |trace|
  {
    hide After, Fulfils;
    LastStep(trace, start, p);
    if i < |trace| - 1 {
      var earlier := trace[..|trace| - 1];
      StepAt(earlier, i, start, p);
      assert earlier[..i] == trace[..i] && earlier[..i + 1] == trace[..i + 1];
    } else {
      assert trace[..i + 1] == trace;
    }
  }

  /** A run that has completed its iterations: whatever was due has been done. */
  predicate Completed(trace: seq<Action>, start: Memory, p: Policy) {
    Remember(trace, start, p).Some? && Remember(trace, start, p).value.duty == AskStatus
  }

  /** The step after a position at which the iteration is not over. */
  lemma NextStep(trace: seq<Action>, i: nat, start: Memory, p: Policy)
    requires Completed(trace, start, p) && i <= |trace|
    requires Remember(trace[..i], start, p).Some? && Remember(trace[..i], start, p).value.duty != AskStatus
    ensures i < |trace|
    ensures var before := Remember(trace[..i], start, p).value;
      Fulfils(before.duty, trace[i]) && Remember(trace[..i + 1], start, p) == Some(After(before, trace[i], p))
  {
    hide After, Fulfils;
    assert trace[..|trace|] == trace;
    if i < |trace| {
      StepAt(trace, i, start, p);
    }
  }

  predicate EndsAttempt(a: Action) {
    a.Heard? && a.answer.Reconnect? && !a.answer.ending.Unfinished?
  }

  /** A reconnect was started before `i` and has not ended. */
  ghost predicate AttemptOpen(trace: seq<Action>, i: nat)
    requires i <= |trace|
  {
    exists j | 0 <= j < i :: trace[j].ReconnectStarted? && forall k | j < k < i :: !EndsAttempt(trace[k])
  }

  /** Every reconnect of the current episode started at least the throttle interval before `now`. */
  ghost predicate ThrottleOver(trace: seq<Action>, i: nat, now: Instant)
    requires i <= |trace|
  {
    forall j | 0 <= j < i && trace[j].ReconnectStarted? && NoRecovery(trace, j, i) ::
      now >= trace[j].at + RECONNECT_INTERVAL
  }

  lemma StepReconnecting(m: Memory, a: Action, p: Policy)
    requires Fulfils(m.duty, a)
    ensures After(m, a, p).reconnecting == (a.ReconnectStarted? || (m.reconnecting && !EndsAttempt(a)))
  {
    hide Learnt, Answers;
    if a.Heard? {
      LearntReconnecting(m, a.answer, p);
    }
  }

  lemma LearntReconnecting(m: Memory, answer: Answer, p: Policy)
    requires Answers(m.duty, answer)
    ensures Learnt(m, answer, p).reconnecting == (m.reconnecting && !EndsAttempt(Heard(answer)))
  {
    hide ReconnectDuty, ReprobeDuty, DownDuty;
  }

  lemma AttemptOpenSnoc(trace: seq<Action>, a: Action)
    ensures AttemptOpen(trace + [a], |trace| + 1)
      <==> a.ReconnectStarted? || (AttemptOpen(trace, |trace|) && !EndsAttempt(a))
  {
    hide EndsAttempt;
    var longer := trace + [a];
    assert longer[|trace|] == a && forall k | 0 <= k < |trace| :: longer[k] == trace[k];
    if AttemptOpen(trace, |trace|) && !EndsAttempt(a) {
      var j :| 0 <= j < |trace| && trace[j].ReconnectStarted? && forall k | j < k < |trace| :: !EndsAttempt(trace[k]);
      assert longer[j].ReconnectStarted? && forall k | j < k < |longer| :: !EndsAttempt(longer[k]);
    }
    if AttemptOpen(longer, |longer|) && !a.ReconnectStarted? {
      var j :| 0 <= j < |longer| && longer[j].ReconnectStarted?
        && forall k | j < k < |longer| :: !EndsAttempt(longer[k]);
      assert j < |trace| && trace[j].ReconnectStarted?;
      assert forall k | j < k < |trace| :: !EndsAttempt(trace[k]) by {
        forall k | j < k < |trace| ensures !EndsAttempt(trace[k]) {
          assert longer[k] == trace[k];
        }
      }
    }
  }

  lemma {:induction false} RunReconnecting(trace: seq<Action>, start: Memory, p: Policy)
    requires Remember(trace, start, p).Some? && !start.reconnecting
    ensures Remember(trace, start, p).value.reconnecting <==> AttemptOpen(trace, |trace|)
    decreases |trace|
  {
    hide After, Fulfils, AttemptOpen, EndsAttempt;
    if trace == [] {
      NoAttempt();
    } else {
      LastStep(trace, start, p);
      var (earlier, a) := (trace[..|trace| - 1], trace[|trace| - 1]);
      RunReconnecting(earlier, start, p);
      StepReconnecting(Remember(earlier, start, p).value, a, p);
      AttemptOpenSnoc(earlier, a);
    }
  }

  lemma NoAttempt()
    ensures !AttemptOpen([], 0)
  {
  }

  lemma ThrottleOverSnoc(trace: seq<Action>, a: Action, now: Instant)
    ensures ThrottleOver(trace + [a], |trace| + 1, now)
      <==> a.Recovered? || (ThrottleOver(trace, |trace|, now)
                            && (a.ReconnectStarted? ==> now >= a.at + RECONNECT_INTERVAL))
  {
    var longer := trace + [a];
    assert longer[|trace|] == a && forall k | 0 <= k < |trace| :: longer[k] == trace[k];
    forall j | 0 <= j < |trace|
      ensures NoRecovery(longer, j, |longer|) <==> NoRecovery(trace, j, |trace|) && !a.Recovered?
    {
      NoRecoverySnoc(trace, a, j);
    }
  }

  lemma {:induction false} RunThrottleOver(trace: seq<Action>, start: Memory, p: Policy, now: Instant)
    requires Remember(trace, start, p).Some? && start.reconnectLast.None? && start.duty == AskStatus
    requires start.reprobeLast.None?
    ensures Elapsed(Remember(trace, start, p).value.reconnectLast, now, RECONNECT_INTERVAL)
      <==> ThrottleOver(trace, |trace|, now)
    decreases |trace|
  {
    hide After, Fulfils, ThrottleOver;
    if trace == [] {
      NoThrottle(now);
    } else {
      LastStep(trace, start, p);
      var (earlier, a) := (trace[..|trace| - 1], trace[|trace| - 1]);
      RunThrottleOver(earlier, start, p, now);
      RunThrottled(earlier, start, p);
      StepStarts(Remember(earlier, start, p).value, a, p);
      ThrottleOverSnoc(earlier, a, now);
    }
  }

  lemma NoThrottle(now: Instant)
    ensures ThrottleOver([], 0, now)
  {
  }

  /** An iteration starts at the position and finds the session down. */
  predicate FoundDown(trace: seq<Action>, i: nat, start: Memory, p: Policy) {
    && i < |trace| && trace[i] == Heard(Status(true))
    && Remember(trace[..i], start, p).Some? && Remember(trace[..i], start, p).value.duty == AskStatus
  }

  /** The clock is read at `k`; an attempt starts there exactly when none runs and the throttle allows it. */
  ghost predicate StartsIfDue(trace: seq<Action>, k: nat) {
    && k + 1 < |trace| && trace[k].Heard? && trace[k].answer.Time?
    && var now := trace[k].answer.now;
      && (trace[k + 1] == ReconnectStarted(now) <==> !AttemptOpen(trace, k) && ThrottleOver(trace, k, now))
      && (AttemptOpen(trace, k) ==> trace[k + 1].Heard? && trace[k + 1].answer.Reconnect?)
  }

  lemma PrefixOpen(trace: seq<Action>, k: nat)
    requires k <= |trace|
    ensures AttemptOpen(trace[..k], k) <==> AttemptOpen(trace, k)
    ensures forall now :: ThrottleOver(trace[..k], k, now) <==> ThrottleOver(trace, k, now)
  {
    hide EndsAttempt;
    var early := trace[..k];
    assert forall j | 0 <= j < k :: early[j] == trace[j];
    forall j | 0 <= j < k ensures NoRecovery(early, j, k) <==> NoRecovery(trace, j, k) {
    }
    if AttemptOpen(early, k) {
      var j :| 0 <= j < k && early[j].ReconnectStarted? && forall i | j < i < k :: !EndsAttempt(early[i]);
      assert forall i | j < i < k :: !EndsAttempt(trace[i]) by {
        forall i | j < i < k ensures !EndsAttempt(trace[i]) { assert early[i] == trace[i]; }
      }
    }
    if AttemptOpen(trace, k) {
      var j :| 0 <= j < k && trace[j].ReconnectStarted? && forall i | j < i < k :: !EndsAttempt(trace[i]);
      assert early[j].ReconnectStarted? && forall i | j < i < k :: !EndsAttempt(early[i]);
    }
  }

  /** Once the clock is read in a session that is down. */
  lemma ClockStartsReconnect(trace: seq<Action>, k: nat, client: Client, leg: ActiveLeg, p: Policy)
    requires Completed(trace, Start(client, leg), p) && k <= |trace|
    requires var before := Remember(trace[..k], Start(client, leg), p); before.Some? && before.value.duty == AskTime
    ensures StartsIfDue(trace, k)
  {
    hide Completed, AttemptOpen, ThrottleOver, Remember;
    var start := Start(client, leg);
    NextStep(trace, k, start, p);
    var m := Remember(trace[..k], start, p).value;
    var now := trace[k].answer.now;
    RunReconnecting(trace[..k], start, p);
    RunThrottleOver(trace[..k], start, p, now);
    PrefixOpen(trace, k);
    NextStep(trace, k + 1, start, p);
  }

  /** The daemon has been respawned in the current episode. */
  ghost predicate RespawnSpent(trace: seq<Action>, i: nat)
    requires i <= |trace|
  {
    exists j | 0 <= j < i :: trace[j].Respawned? && NoRecovery(trace, j, i)
  }

  lemma RespawnSpentSnoc(trace: seq<Action>, a: Action)
    ensures RespawnSpent(trace + [a], |trace| + 1)
      <==> a.Respawned? || (RespawnSpent(trace, |trace|) && !a.Recovered?)
  {
    var longer := trace + [a];
    assert longer[|trace|] == a && forall k | 0 <= k < |trace| :: longer[k] == trace[k];
    forall j | 0 <= j < |trace|
      ensures NoRecovery(longer, j, |longer|) <==> NoRecovery(trace, j, |trace|) && !a.Recovered?
    {
      NoRecoverySnoc(trace, a, j);
    }
    if a.Respawned? {
      assert longer[|trace|].Respawned? && NoRecovery(longer, |trace|, |longer|);
    }
    if j :| 0 <= j < |trace| && trace[j].Respawned? && NoRecovery(trace, j, |trace|) {
      assert longer[j].Respawned?;
    }
  }

  lemma {:induction false} RunRespawnSpent(trace: seq<Action>, start: Memory, p: Policy)
    requires Remember(trace, start, p).Some? && !start.respawned
    ensures Remember(trace, start, p).value.respawned <==> RespawnSpent(trace, |trace|)
    decreases |trace|
  {
    hide After, Fulfils, RespawnSpent;
    if trace == [] {
      NoRespawn();
    } else {
      LastStep(trace, start, p);
      var (earlier, a) := (trace[..|trace| - 1], trace[|trace| - 1]);
      RunRespawnSpent(earlier, start, p);
      StepEpisode(Remember(earlier, start, p).value, a, p);
      RespawnSpentSnoc(earlier, a);
    }
  }

  lemma NoRespawn()
    ensures !RespawnSpent([], 0)
  {
  }

  lemma PrefixSpent(trace: seq<Action>, i: nat)
    requires i <= |trace|
    ensures RespawnSpent(trace[..i], i) <==> RespawnSpent(trace, i)
  {
    var early := trace[..i];
    assert forall j | 0 <= j < i :: early[j] == trace[j];
    forall j | 0 <= j < i ensures NoRecovery(early, j, i) <==> NoRecovery(trace, j, i) {
    }
    if j :| 0 <= j < i && trace[j].Respawned? && NoRecovery(trace, j, i) {
      assert early[j].Respawned?;
    }
    if j :| 0 <= j < i && early[j].Respawned? && NoRecovery(early, j, i) {
      assert trace[j].Respawned?;
    }
  }

  /** A session found down is respawned first if it may be, then reads the clock and reconnects exactly when due. */
  lemma DownReconnects(trace: seq<Action>, i: nat, client: Client, leg: ActiveLeg, p: Policy)
    requires Completed(trace, Start(client, leg), p) && FoundDown(trace, i, Start(client, leg), p)
    ensures i + 1 < |trace|
    ensures trace[i + 1] == Respawned <==> p.ownsEphemeral && p.local && !RespawnSpent(trace, i)
    ensures StartsIfDue(trace, if trace[i + 1] == Respawned then i + 2 else i + 1)
  {
    hide AttemptOpen, ThrottleOver, Remember, StartsIfDue, RespawnSpent;
    var start := Start(client, leg);
    StepAt(trace, i, start, p);
    RunRespawnSpent(trace[..i], start, p);
    PrefixSpent(trace, i);
    NextStep(trace, i + 1, start, p);
    var m := Remember(trace[..i + 1], start, p).value;
    assert m.duty.Respawn? || m.duty.AskTime?;
    ClockStartsReconnect(trace, if m.duty.Respawn? then i + 2 else i + 1, client, leg, p);
  }

  /** Every probe started its period before `now`. */
  ghost predicate PeriodOver(trace: seq<Action>, now: Instant, period: nat) {
    forall j | 0 <= j < |trace| && trace[j].ReprobeStarted? :: now >= trace[j].at + period
  }

  lemma PeriodOverSnoc(trace: seq<Action>, a: Action, now: Instant, period: nat)
    ensures PeriodOver(trace + [a], now, period)
      <==> PeriodOver(trace, now, period) && (a.ReprobeStarted? ==> now >= a.at + period)
  {
    var longer := trace + [a];
    assert longer[|trace|] == a && forall k | 0 <= k < |trace| :: longer[k] == trace[k];
  }

  lemma {:induction false} RunPeriodOver(trace: seq<Action>, start: Memory, p: Policy, now: Instant)
    requires Remember(trace, start, p).Some? && start.duty == AskStatus
    requires start.reconnectLast.None? && start.reprobeLast.None?
    ensures Elapsed(Remember(trace, start, p).value.reprobeLast, now, p.period) <==> PeriodOver(trace, now, p.period)
    decreases |trace|
  {
    hide After, Fulfils, PeriodOver;
    if trace == [] {
      NoPeriod(now, p.period);
    } else {
      LastStep(trace, start, p);
      var (earlier, a) := (trace[..|trace| - 1], trace[|trace| - 1]);
      RunPeriodOver(earlier, start, p, now);
      RunThrottled(earlier, start, p);
      StepStarts(Remember(earlier, start, p).value, a, p);
      PeriodOverSnoc(earlier, a, now, p.period);
    }
  }

  lemma NoPeriod(now: Instant, period: nat)
    ensures PeriodOver([], now, period)
  {
  }

  /** A live session on the relay with a direct address to go back to probes it exactly when due. */
  lemma RelayProbes(trace: seq<Action>, i: nat, client: Client, leg: ActiveLeg, p: Policy)
    requires Completed(trace, Start(client, leg), p) && i < |trace| && trace[i] == Heard(Status(false))
    requires Remember(trace[..i], Start(client, leg), p).Some?
    requires var before := Remember(trace[..i], Start(client, leg), p).value;
      before.duty == AskStatusAgain && before.leg == WssRelay && p.mayProbe
    ensures var probing := Remember(trace[..i], Start(client, leg), p).value.reprobing;
      && i + 1 < |trace| && trace[i + 1].Heard? && trace[i + 1].answer.Time?
      && var now := trace[i + 1].answer.now;
        && (i + 2 < |trace| && trace[i + 2] == ReprobeStarted(now)
            <==> !probing && PeriodOver(trace[..i + 1], now, p.period))
        && (probing ==> i + 2 < |trace| && trace[i + 2].Heard? && trace[i + 2].answer.Reprobe?)
  {
    hide Remember, PeriodOver;
    var start := Start(client, leg);
    StepAt(trace, i, start, p);
    NextStep(trace, i + 1, start, p);
    var now := trace[i + 1].answer.now;
    RunPeriodOver(trace[..i + 1], start, p, now);
    if Remember(trace[..i + 2], start, p).value.duty != AskStatus {
      NextStep(trace, i + 2, start, p);
    } else if i + 2 < |trace| {
      StepAt(trace, i + 2, start, p);
    }
  }

  /** A client that an attempt or a probe ends with is installed, and the panes are rebuilt on it. */
  lemma EndedAttemptAdopted(trace: seq<Action>, i: nat, client: Client, leg: ActiveLeg, p: Policy)
    requires Completed(trace, Start(client, leg), p) && i < |trace|
    requires trace[i].Heard? && (trace[i].answer.Reconnect? || trace[i].answer.Reprobe?)
    requires trace[i].answer.ending.Connected?
    ensures var (made, recovers) := (trace[i].answer.ending.client, trace[i].answer.Reconnect?);
      && i + 3 < |trace| && trace[i + 1] == Installed(made) && trace[i + 2].Heard? && trace[i + 2].answer.Panes?
      && if trace[i + 2].answer.built then
           trace[i + 3] == (if recovers then Recovered(made) else Migrated(made))
           && i + 4 < |trace| && trace[i + 4].ShutDown?
         else trace[i + 3] == ShutDown(made)
  {
    hide Remember;
    var start := Start(client, leg);
    StepAt(trace, i, start, p);
    NextStep(trace, i + 1, start, p);
    NextStep(trace, i + 2, start, p);
    NextStep(trace, i + 3, start, p);
    if trace[i + 2].answer.built {
      NextStep(trace, i + 4, start, p);
    }
  }

  // ----- The rate of reconnects -----

  /** Positions of reconnect starts, in order, with no recovery anywhere between them. */
  ghost predicate OneEpisode(trace: seq<Action>, starts: seq<nat>) {
    && starts != []
    && (forall k | 0 <= k < |starts| :: starts[k] < |trace| && trace[starts[k]].ReconnectStarted?)
    && (forall k | 0 < k < |starts| :: starts[k - 1] < starts[k])
    && NoRecovery(trace, starts[0], starts[|starts| - 1])
  }

  lemma {:induction false} EpisodeOrdered(trace: seq<Action>, starts: seq<nat>)
    requires OneEpisode(trace, starts)
    ensures starts[0] <= starts[|starts| - 1]
  {
    if |starts| > 1 {
      EpisodeOrdered(trace, starts[..|starts| - 1]);
    }
  }

  /** An episode of any length makes at most one reconnect attempt per interval, however often the loop turns. */
  lemma {:induction false} ReconnectRate(trace: seq<Action>, starts: seq<nat>)
    requires ReconnectsSpaced(trace) && OneEpisode(trace, starts)
    ensures trace[starts[|starts| - 1]].at >= trace[starts[0]].at + RECONNECT_INTERVAL * (|starts| - 1)
  {
    if |starts| > 1 {
      var shorter := starts[..|starts| - 1];
      var i, j := starts[|starts| - 2], starts[|starts| - 1];
      assert shorter[|shorter| - 1] == i && starts[|starts| - 1 - 1] < j;
      EpisodeOrdered(trace, shorter);
      ReconnectRate(trace, shorter);
      assert NoRecovery(trace, i, j);
    }
  }

}
