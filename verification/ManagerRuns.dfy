/** What a manager guarantees over whole sequences of operations. */
module ManagerRuns {
  import opened Configs
  import opened Limiters
  import opened Managers
  import opened Wrappers

  /** The operations that see or change limits; each is atomic at this level. */
  datatype Op =
    | Allow(id: string, created: int, now: int)
    | SetConfig(id: string, cfg: Config)
    | GetConfig(id: string)
    | RemoveClient(id: string)
    | Restore(p: PersistedState)

  datatype Reply =
    | Decided(d: Decision)
    | Configured(r: Result<(), ConfigError>)
    | Stored(cfg: Option<Config>)
    | Done

  function After(m: ManagerState, op: Op): ManagerState {
    match op
    case Allow(id, created, now) => AfterAllow(m, id, created, now)
    case SetConfig(id, cfg) => AfterSetConfig(m, id, cfg)
    case GetConfig(_) => m
    case RemoveClient(id) => AfterRemove(m, id)
    case Restore(p) => AfterRestore(m, p)
  }

  function ReplyTo(m: ManagerState, op: Op): Reply {
    match op
    case Allow(id, created, now) => Decided(Decide(LimiterFor(m, id, created), now))
    case SetConfig(_, cfg) => Configured(Validate(cfg))
    case GetConfig(id) => Stored(if id in m.configs then Some(m.configs[id]) else None)
    case RemoveClient(_) => Done
    case Restore(_) => Done
  }

  /** The manager after a sequence of operations. */
  function Run(m: ManagerState, ops: seq<Op>): ManagerState
    decreases ops
  {
    if ops == [] then m else Run(After(m, ops[0]), ops[1..])
  }

  function Replies(m: ManagerState, ops: seq<Op>): seq<Reply>
    decreases ops
  {
    if ops == [] then [] else [ReplyTo(m, ops[0])] + Replies(After(m, ops[0]), ops[1..])
  }

  /** Equal but for the counts. */
  ghost predicate SameLimits(m: ManagerState, m': ManagerState) {
    m.configs == m'.configs && m.limiters == m'.limiters
  }

  lemma {:induction false} SameLimitsSameReplies(m: ManagerState, m': ManagerState, ops: seq<Op>)
    requires SameLimits(m, m')
    ensures Replies(m, ops) == Replies(m', ops)
    ensures SameLimits(Run(m, ops), Run(m', ops))
    decreases ops
  {
    if ops != [] {
      SameLimitsSameReplies(After(m, ops[0]), After(m', ops[0]), ops[1..]);
    }
  }

  /**
   A snapshot restored into a new manager is indistinguishable from the original: every later
   sequence of operations gets the same replies, for both algorithms and in every field.
   */
  lemma RestoreOfSnapshotIsInvisible(m: ManagerState, ops: seq<Op>)
    ensures Replies(AfterRestore(EMPTY, SnapshotOf(m)), ops) == Replies(m, ops)
    ensures SameLimits(Run(AfterRestore(EMPTY, SnapshotOf(m)), ops), Run(m, ops))
  {
    assert LoadedLimiters(SnapshotOf(m)) == m.limiters;
    SameLimitsSameReplies(AfterRestore(EMPTY, SnapshotOf(m)), m, ops);
  }

  /** What a manager keeps for one client. */
  datatype View = View(cfg: Option<Config>, limiter: Option<LimiterValue>)

  function ViewOf(m: ManagerState, id: string): View {
    View(
      if id in m.configs then Some(m.configs[id]) else None,
      if id in m.limiters then Some(m.limiters[id]) else None)
  }

  /** A client's own operations, and the restores that concern everyone. */
  predicate Concerns(op: Op, id: string) {
    op.Restore? || op.id == id
  }

  function Project(ops: seq<Op>, id: string): seq<Op> {
    if ops == [] then
      []
    else
      (if Concerns(ops[0], id) then [ops[0]] else []) + Project(ops[1..], id)
  }

  /** The replies of a run to the operations that concern one client. */
  function RepliesFor(m: ManagerState, ops: seq<Op>, id: string): seq<Reply>
    decreases ops
  {
    if ops == [] then
      []
    else
      (if Concerns(ops[0], id) then [ReplyTo(m, ops[0])] else []) + RepliesFor(After(m, ops[0]), ops[1..], id)
  }

  lemma ViewStep(m: ManagerState, m': ManagerState, op: Op, id: string)
    requires ViewOf(m, id) == ViewOf(m', id)
    ensures Concerns(op, id) ==>
              ReplyTo(m, op) == ReplyTo(m', op) && ViewOf(After(m, op), id) == ViewOf(After(m', op), id)
    ensures !Concerns(op, id) ==> ViewOf(After(m, op), id) == ViewOf(m, id)
  {
  }

  /**
   Isolation: what a client is told, over any run, is what it would be told if no other client had
   done anything.
   */
  lemma {:induction false} ClientsAreIsolated(m: ManagerState, m': ManagerState, ops: seq<Op>, id: string)
    requires ViewOf(m, id) == ViewOf(m', id)
    ensures RepliesFor(m, ops, id) == Replies(m', Project(ops, id))
    ensures ViewOf(Run(m, ops), id) == ViewOf(Run(m', Project(ops, id)), id)
    decreases ops
  {
    if ops != [] {
      ViewStep(m, m', ops[0], id);
      if Concerns(ops[0], id) {
        ClientsAreIsolated(After(m, ops[0]), After(m', ops[0]), ops[1..], id);
        assert Project(ops, id)[1..] == Project(ops[1..], id);
      } else {
        ClientsAreIsolated(After(m, ops[0]), m', ops[1..], id);
        assert Project(ops, id) == Project(ops[1..], id);
      }
    }
  }

  /** Every limiter is of the type and with the parameters of the configuration in force. */
  ghost predicate ParametersFit(m: ManagerState) {
    forall id :: id in m.limiters ==> BuiltFor(m.limiters[id], ConfigFor(m.configs, id))
  }

  lemma OpKeepsParameters(m: ManagerState, op: Op)
    requires ParametersFit(m) && (op.Restore? ==> Consistent(op.p))
    ensures ParametersFit(After(m, op))
  {
    hide Limiters.Next, Limiters.Admits, NewLimiter, LoadedLimiters;
    if op.Allow? {
      var l := LimiterFor(m, op.id, op.created);
      NewLimiterFits(ConfigFor(m.configs, op.id), op.created);
      NextStaysBuiltFor(l, op.now, ConfigFor(m.configs, op.id));
    }
  }

  /**
   No operation leaves a limiter behind that does not fit the configuration in force, and a
   snapshot taken at any point fits as well: restoring it later, into any manager, is safe.
   */
  lemma {:induction false} ParametersAlwaysFit(m: ManagerState, ops: seq<Op>)
    requires ParametersFit(m)
    requires forall k :: 0 <= k < |ops| && ops[k].Restore? ==> Consistent(ops[k].p)
    ensures ParametersFit(Run(m, ops)) && Consistent(SnapshotOf(Run(m, ops)))
    decreases ops
  {
    hide After;
    if ops == [] {
      assert LoadedLimiters(SnapshotOf(m)) == m.limiters;
    } else {
      assert ops[0].Restore? ==> Consistent(ops[0].p);
      OpKeepsParameters(m, ops[0]);
      ParametersAlwaysFit(After(m, ops[0]), ops[1..]);
    }
  }

  /** Whatever came before, what a client is told depends on its own entries alone. */
  lemma SameViewSameReplies(m: ManagerState, m': ManagerState, ops: seq<Op>, id: string)
    requires ViewOf(m, id) == ViewOf(m', id)
    ensures RepliesFor(m, ops, id) == RepliesFor(m', ops, id)
  {
    ClientsAreIsolated(m, m', ops, id);
    ClientsAreIsolated(m', m', ops, id);
  }

  /** What the next request meets. */
  lemma ReconfiguredView(m: ManagerState, id: string, cfg: Config, created: int)
    ensures Valid(cfg) ==>
              && ViewOf(After(m, SetConfig(id, cfg)), id) == View(Some(cfg), None)
              && LimiterFor(After(m, SetConfig(id, cfg)), id, created) == NewLimiter(cfg, created)
    ensures !Valid(cfg) ==> After(m, SetConfig(id, cfg)) == m
    ensures ViewOf(After(m, RemoveClient(id)), id) == View(None, None)
    ensures LimiterFor(After(m, RemoveClient(id)), id, created) == NewLimiter(DEFAULT_CONFIG, created)
  {
  }

  /**
   Reconfiguring starts the client over: whatever was configured, admitted or restored before, every
   later run tells it what a new manager with only that configuration would; after its removal, what
   a new manager would; and an invalid configuration changes no reply.
   */
  lemma ReconfigurationStartsOver(m: ManagerState, id: string, cfg: Config, ops: seq<Op>)
    ensures Valid(cfg) ==>
              RepliesFor(After(m, SetConfig(id, cfg)), ops, id) == RepliesFor(After(EMPTY, SetConfig(id, cfg)), ops, id)
    ensures !Valid(cfg) ==> RepliesFor(After(m, SetConfig(id, cfg)), ops, id) == RepliesFor(m, ops, id)
    ensures RepliesFor(After(m, RemoveClient(id)), ops, id) == RepliesFor(EMPTY, ops, id)
  {
    hide RepliesFor;
    ReconfiguredView(m, id, cfg, 0);
    ReconfiguredView(EMPTY, id, cfg, 0);
    if Valid(cfg) {
      SameViewSameReplies(After(m, SetConfig(id, cfg)), After(EMPTY, SetConfig(id, cfg)), ops, id);
    }
    SameViewSameReplies(After(m, RemoveClient(id)), EMPTY, ops, id);
  }

  /**
   A configuration is read as it was written, until it is removed; nobody is configured in a new
   manager, and an unconfigured client gets the default.
   */
  lemma ConfigurationIsRead(m: ManagerState, id: string, cfg: Config, created: int, now: int)
    ensures Valid(cfg) ==>
              var configured := After(m, SetConfig(id, cfg));
              && ReplyTo(configured, GetConfig(id)) == Stored(Some(cfg))
              && ReplyTo(After(configured, Allow(id, created, now)), GetConfig(id)) == Stored(Some(cfg))
    ensures ReplyTo(After(m, RemoveClient(id)), GetConfig(id)) == Stored(None)
    ensures ReplyTo(EMPTY, GetConfig(id)) == Stored(None)
    ensures LimiterFor(EMPTY, id, created) == NewLimiter(DEFAULT_CONFIG, created)
    ensures ReplyTo(m, SetConfig(id, cfg)) == Configured(Success(())) <==> Valid(cfg)
  {
    hide NewLimiter, Limiters.Next, Limiters.Admits;
  }

  /** The number of decisions of this kind that a run takes for a client. */
  function DecidedIn(m: ManagerState, ops: seq<Op>, id: string, allowed: bool): nat
    decreases ops
  {
    if ops == [] then
      0
    else
      (if ops[0].Allow? && ops[0].id == id && ReplyTo(m, ops[0]).d.allowed == allowed then 1 else 0)
      + DecidedIn(After(m, ops[0]), ops[1..], id, allowed)
  }

  /** No operation but a request changes any count, and a request changes one of its own client. */
  lemma OnlyRequestsCount(m: ManagerState, op: Op, id: string, allowed: bool)
    ensures !op.Allow? ==> After(m, op).counts == m.counts
    ensures CountOf(StatsFor(After(m, op).counts, id), allowed)
         == CountOf(StatsFor(m.counts, id), allowed)
            + if op.Allow? && op.id == id && ReplyTo(m, op).d.allowed == allowed then 1 else 0
  {
    hide LoadedLimiters, NewLimiter, Limiters.Next, Limiters.Admits, Decide;
    if op.Allow? {
      DecisionIsAdmission(LimiterFor(m, op.id, op.created), op.now);
    }
  }

  /** A manager's counts are the numbers of decisions it has taken, reconfigured or not. */
  lemma {:induction false} CountsAreDecisions(m: ManagerState, ops: seq<Op>, id: string, allowed: bool)
    ensures CountOf(StatsFor(Run(m, ops).counts, id), allowed)
         == CountOf(StatsFor(m.counts, id), allowed) + DecidedIn(m, ops, id, allowed)
    ensures m == EMPTY ==> CountOf(StatsFor(Run(m, ops).counts, id), allowed) == DecidedIn(m, ops, id, allowed)
    decreases ops
  {
    hide After, ReplyTo;
    if ops != [] {
      OnlyRequestsCount(m, ops[0], id, allowed);
      CountsAreDecisions(After(m, ops[0]), ops[1..], id, allowed);
    }
  }
}
