/** The evaluation pipeline of the sidecar: plugins, custom rules, policy rules, scorer, and what
    is recorded about every request. */
module Sidecar {
  import opened Text
  import opened PluginChain
  import opened RuleEngines

  /** What the nginx module sends about a request; `readFailed` says that the body broke off. */
  datatype Incoming = Incoming(
    httpMethod: string, uri: string, host: string, remoteIP: string,
    userAgent: string, contentType: string, referer: string, body: string, readFailed: bool)

  const MAX_BODY_READ: nat := 65536

  function BodyRead(incoming: Incoming): string {
    if |incoming.body| > MAX_BODY_READ then incoming.body[..MAX_BODY_READ] else incoming.body
  }

  /** The request as the rules see it; a body that broke off is dropped. */
  function RequestOf(incoming: Incoming): Request {
    Request(incoming.httpMethod, incoming.host, incoming.uri, incoming.remoteIP,
            map["User-Agent" := [incoming.userAgent], "Content-Type" := [incoming.contentType],
                "Referer" := [incoming.referer]],
            if incoming.readFailed then "" else BodyRead(incoming))
  }

  /** The context that the first plugin sees; a body that broke off is kept. */
  function ContextOf(incoming: Incoming): Context {
    var values := map["wn_method" := incoming.httpMethod, "wn_uri" := incoming.uri, "wn_host" := incoming.host,
                      "wn_ip" := incoming.remoteIP, "wn_ua" := incoming.userAgent, "wn_ct" := incoming.contentType,
                      "wn_ref" := incoming.referer];
    Context(if BodyRead(incoming) != "" then values["wn_body" := BodyRead(incoming)] else values, 0)
  }

  /** The scorer's answer, None when it fails. */
  datatype Score = Score(blocks: bool, modelName: string, reasons: seq<string>)
  type Scorer = Incoming -> Option<Score>

  /** What a request is evaluated against. */
  datatype Setup = Setup(
    plugins: seq<Plugin>, lib: Library, custom: seq<CustomRule>, policy: seq<PolicyRule>, scorer: Option<Scorer>)

  function PreRequestOrder(setup: Setup): seq<Plugin> {
    StableSort(OfPhase(setup.plugins, PreRequest))
  }

  datatype Reply =
    | NoContent                                   // 204: allowed
    | Forbidden(ruleID: string, reason: string)   // 403
    | FromPlugin(status: int)                     // a plugin answered before it failed

  function StatusOf(reply: Reply): int {
    match reply
    case NoContent => 204
    case Forbidden(_, _) => 403
    case FromPlugin(status) => status
  }

  datatype Verdict = AllowVerdict | BlockVerdict

  datatype Record = Record(
    req: Request, snippet: string, verdict: Verdict, ruleID: string, reason: string, duration: int)

  datatype AuditEvent = AuditEvent(actor: string, action: string, resource: string, details: string)

  datatype BlockedEvent = BlockedEvent(
    httpMethod: string, path: string, remoteIP: string, ruleID: string, reason: string)

  // ---------------------------------------------------------------- which stage decides

  /** What the stages answered for one request; None for a stage that was not reached. */
  datatype Stages = Stages(chain: Outcome, custom: Option<Result>, policy: Option<Result>, score: Option<Option<Score>>)

  /** Each stage answers on the request if the ones before it let it pass, and is not asked otherwise. */
  ghost predicate StagesOf(setup: Setup, incoming: Incoming, s: Stages) {
    && s.chain == RunAll(PreRequestOrder(setup), ContextOf(incoming))
    && (s.custom.Some? <==> s.chain.error.None?)
    && (s.custom.Some? ==> CustomAnswer(setup.lib, setup.custom, RequestOf(incoming), s.custom.value))
    && (s.policy.Some? <==> s.custom.Some? && Passes(s.custom.value))
    && (s.policy.Some? ==> PolicyAnswer(setup.policy, RequestPhase, s.chain.ctx, RequestOf(incoming), s.policy.value))
    && (s.score.Some? <==> s.policy.Some? && Passes(s.policy.value))
    && (s.score.Some? ==> s.score.value == if setup.scorer.Some? then setup.scorer.value(incoming) else None)
  }

  function ScoreReason(s: Score): string {
    "ML anomaly: " + Join(s.reasons, "; ")
  }

  /** What is answered, and the rule and reason that are recorded. */
  datatype Decision = Decision(reply: Reply, verdict: Verdict, ruleID: string, reason: string)

  function Deny(ruleID: string, reason: string): Decision {
    Decision(Forbidden(ruleID, reason), BlockVerdict, ruleID, reason)
  }

  function Decide(s: Stages): Decision {
    if s.chain.error.Some? then
      var reason := s.chain.error.value;
      if s.chain.ctx.statusCode == 0 then Deny("plugin-chain", reason)
      else Decision(FromPlugin(s.chain.ctx.statusCode), BlockVerdict, "plugin-chain", reason)
    else if s.custom.Some? && !Passes(s.custom.value) then Deny(s.custom.value.ruleID, s.custom.value.reason)
    else if s.policy.Some? && !Passes(s.policy.value) then Deny(s.policy.value.ruleID, s.policy.value.reason)
    else if s.score.Some? && s.score.value.Some? && s.score.value.value.blocks then
      Deny("appsec-" + s.score.value.value.modelName, ScoreReason(s.score.value.value))
    else Decision(NoContent, AllowVerdict, "", "")
  }

  // ---------------------------------------------------------------- recording

  /** Which consumers are attached; the bridge delivers events over HTTP. */
  datatype Attached = Attached(learning: bool, learningEnabled: bool, audit: bool, broker: bool, bridge: bool)

  /** Everything handed to the consumers so far, oldest first. */
  datatype Logs = Logs(
    learned: seq<Record>, audited: seq<AuditEvent>, published: seq<BlockedEvent>, bridged: seq<BlockedEvent>)

  const NO_LOGS: Logs := Logs([], [], [], [])

  function Snippet(body: string): string {
    if |body| > 100 then body[..100] else body
  }

  function NamedRule(ruleID: string): string {
    if ruleID == "" then "unknown" else ruleID
  }

  function Audited(req: Request, d: Decision): AuditEvent {
    AuditEvent(req.remoteIP, req.httpMethod + " " + req.path, req.host, 
               "rule=" + NamedRule(d.ruleID) + " reason=" + d.reason)
  }

  function Published(req: Request, d: Decision): BlockedEvent {
    BlockedEvent(req.httpMethod, req.path, req.remoteIP, NamedRule(d.ruleID), d.reason)
  }

  function AddIf<T>(log: seq<T>, condition: bool, entry: T): seq<T> {
    if condition then log + [entry] else log
  }

  function Recorded(at: Attached, logs: Logs, req: Request, d: Decision, duration: int): Logs {
    var blocked := at.learning && d.verdict == BlockVerdict;
    Logs(
      AddIf(logs.learned, at.learning && at.learningEnabled,
            Record(req, Snippet(req.body), d.verdict, NamedRule(d.ruleID), d.reason, duration)),
      AddIf(logs.audited, blocked && at.audit, Audited(req, d)),
      AddIf(logs.published, blocked && at.broker, Published(req, d)),
      AddIf(logs.bridged, blocked && at.bridge, Published(req, d)))
  }

  // ---------------------------------------------------------------- the handler

  class Server {
    const chain: Chain
    const custom: CustomEngine?
    const policy: PolicyEngine
    const scorer: Option<Scorer>
    const lib: Library
    const at: Attached
    var learned: seq<Record>
    var audited: seq<AuditEvent>
    var published: seq<BlockedEvent>
    var bridged: seq<BlockedEvent>

    constructor (chain: Chain, custom: CustomEngine?, policy: PolicyEngine, scorer: Option<Scorer>, lib: Library,
                 at: Attached)
      ensures this.chain == chain && this.custom == custom && this.policy == policy
      ensures this.scorer == scorer && this.lib == lib && this.at == at
      ensures CurrentLogs() == NO_LOGS
    {
      this.chain, this.custom, this.policy, this.scorer, this.lib, this.at := chain, custom, policy, scorer, lib, at;
      learned, audited, published, bridged := [], [], [], [];
    }

    function CurrentLogs(): Logs
      reads this
    {
      Logs(learned, audited, published, bridged)
    }

    function CustomRules(): seq<CustomRule>
      reads this, custom
    {
      if custom == null then [] else custom.rules
    }

    ghost function SetupNow(): Setup
      reads this, chain, custom, policy
    {
      Setup(chain.plugins, lib, CustomRules(), policy.rules, scorer)
    }

    /** Evaluates one request; `duration` is the time that it takes. */
    method HandleEvaluate(incoming: Incoming, duration: int) returns (reply: Reply, ghost stages: Stages)
      requires chain.Valid()
      modifies this`learned, this`audited, this`published, this`bridged
      ensures StagesOf(SetupNow(), incoming, stages)
      ensures reply == Decide(stages).reply
      ensures CurrentLogs() == Recorded(at, old(CurrentLogs()), RequestOf(incoming), Decide(stages), duration)
    {
      hide RunAll, StableSort, CustomAnswer, PolicyAnswer, ScoreReason, Recorded, RequestOf, ContextOf;
      var req, ctx := RequestOf(incoming), ContextOf(incoming);
      var o := chain.Execute(ctx, PreRequest);
      stages := Stages(o, None, None, None);
      if o.error.Some? {
        var reason := o.error.value;
        reply := if o.ctx.statusCode == 0 then Forbidden("plugin-chain", reason) else FromPlugin(o.ctx.statusCode);
        RecordLearning(req, Decision(reply, BlockVerdict, "plugin-chain", reason), duration);
        return;
      }
      var customResult := NO_MATCH;
      if custom != null {
        customResult := custom.Evaluate(lib, req);
      } else {
        NoRulesNoMatch(lib, req);
      }
      stages := stages.(custom := Some(customResult));
      if !Passes(customResult) {
        reply := Forbidden(customResult.ruleID, customResult.reason);
        RecordLearning(req, Decision(reply, BlockVerdict, customResult.ruleID, customResult.reason), duration);
        return;
      }
      var policyResult := policy.Evaluate(o.ctx, RequestPhase, req);
      stages := stages.(policy := Some(policyResult));
      if !Passes(policyResult) {
        reply := Forbidden(policyResult.ruleID, policyResult.reason);
        RecordLearning(req, Decision(reply, BlockVerdict, policyResult.ruleID, policyResult.reason), duration);
        return;
      }
      stages := stages.(score := Some(None));
      if scorer.Some? {
        var result := scorer.value(incoming);
        stages := stages.(score := Some(result));
        if result.Some? && result.value.blocks {
          var id, reason := "appsec-" + result.value.modelName, ScoreReason(result.value);
          reply := Forbidden(id, reason);
          RecordLearning(req, Decision(reply, BlockVerdict, id, reason), duration);
          return;
        }
      }
      reply := NoContent;
      RecordLearning(req, Decision(reply, AllowVerdict, "", ""), duration);
    }

    method RecordLearning(req: Request, d: Decision, duration: int)
      modifies this`learned, this`audited, this`published, this`bridged
      ensures CurrentLogs() == Recorded(at, old(CurrentLogs()), req, d, duration)
    {
      if !at.learning {
        return;
      }
      var bodySnippet := "";
      if |req.body| > 0 {
        bodySnippet := if |req.body| > 100 then req.body[..100] else req.body;
      }
      var ruleID := d.ruleID;
      if ruleID == "" {
        ruleID := "unknown";
      }
      if at.learningEnabled {
        learned := learned + [Record(req, bodySnippet, d.verdict, ruleID, d.reason, duration)];
      }
      if at.audit && d.verdict == BlockVerdict {
        audited := audited + [AuditEvent(req.remoteIP, req.httpMethod + " " + req.path, req.host,
                                         "rule=" + ruleID + " reason=" + d.reason)];
      }
      if d.verdict == BlockVerdict {
        var event := BlockedEvent(req.httpMethod, req.path, req.remoteIP, ruleID, d.reason);
        if at.broker {
          published := published + [event];
        }
        if at.bridge {
          bridged := bridged + [event];
        }
      }
    }
  }

  /** Without an engine the custom stage answers like an empty one. */
  lemma NoRulesNoMatch(lib: Library, req: Request)
    ensures CustomAnswer(lib, [], req, NO_MATCH)
  {
  }

  // ---------------------------------------------------------------- main results

  /** The first custom rule that fires, if any, is allow or log. */
  ghost predicate CustomLetsPass(lib: Library, rules: seq<CustomRule>, req: Request) {
    forall i :: 0 <= i < |rules| && Fires(lib, rules[i], req) &&
                (forall k :: 0 <= k < i ==> !Fires(lib, rules[k], req)) ==>
      rules[i].action == Allow || rules[i].action == LogOnly
  }

  ghost predicate PolicyLetsPass(rules: seq<PolicyRule>, ctx: Context, req: Request) {
    forall i :: 0 <= i < |rules| && PolicyFires(rules[i], RequestPhase, ctx, req) &&
                (forall k :: 0 <= k < i ==> !PolicyFires(rules[k], RequestPhase, ctx, req)) ==>
      rules[i].action == Allow || rules[i].action == LogOnly
  }

  lemma CustomPassesIff(lib: Library, rules: seq<CustomRule>, req: Request, r: Result)
    requires CustomAnswer(lib, rules, req, r)
    ensures Passes(r) <==> CustomLetsPass(lib, rules, req)
  {
    hide Fires;
  }

  lemma PolicyPassesIff(rules: seq<PolicyRule>, ctx: Context, req: Request, r: Result)
    requires PolicyAnswer(rules, RequestPhase, ctx, req, r)
    ensures Passes(r) <==> PolicyLetsPass(rules, ctx, req)
  {
    hide PolicyFires;
  }

  /** No PreRequest plugin fails on the context that reaches it, in priority order with ties in Add
      order, the first firing custom rule and the first firing policy rule let the request pass,
      and the scorer is absent, fails or does not block. */
  ghost predicate LetsPass(setup: Setup, incoming: Incoming) {
    var order, ctx, req := PreRequestOrder(setup), ContextOf(incoming), RequestOf(incoming);
    && (forall i :: 0 <= i < |order| ==> order[i].run(ContextAt(order, ctx, i)).error.None?)
    && CustomLetsPass(setup.lib, setup.custom, req)
    && PolicyLetsPass(setup.policy, ContextAt(order, ctx, |order|), req)
    && (setup.scorer.None? || setup.scorer.value(incoming).None? || !setup.scorer.value(incoming).value.blocks)
  }

  /** The first plugin that fails has answered with this status. */
  ghost predicate FailsWithStatus(setup: Setup, incoming: Incoming, status: int) {
    var order, ctx := PreRequestOrder(setup), ContextOf(incoming);
    exists i: nat :: FailsFirst(order, ctx, i) && order[i].run(ContextAt(order, ctx, i)).ctx.statusCode == status
  }

  lemma {:induction false} ChainContext(ps: seq<Plugin>, ctx: Context)
    requires RunAll(ps, ctx).error.None?
    ensures RunAll(ps, ctx).ctx == ContextAt(ps, ctx, |ps|)
  {
    if ps != [] {
      ChainContext(ps[1..], ps[0].run(ctx).ctx);
    }
  }

  lemma PassedIff(setup: Setup, incoming: Incoming, s: Stages)
    requires StagesOf(setup, incoming, s)
    ensures Decide(s).reply == NoContent <==> LetsPass(setup, incoming)
    ensures Decide(s).verdict == AllowVerdict <==> LetsPass(setup, incoming)
  {
    hide RunAll, PreRequestOrder, CustomAnswer, PolicyAnswer, CustomLetsPass, PolicyLetsPass, Passes, ContextAt,
      RequestOf, ContextOf;
    var order, ctx, req := PreRequestOrder(setup), ContextOf(incoming), RequestOf(incoming);
    ChainSucceedsIff(order, ctx);
    if s.custom.Some? {
      CustomPassesIff(setup.lib, setup.custom, req, s.custom.value);
      ChainContext(order, ctx);
    }
    if s.policy.Some? {
      PolicyPassesIff(setup.policy, s.chain.ctx, req, s.policy.value);
    }
  }

  /** A request is answered 204 exactly when every stage lets it pass, or the first plugin that
      fails has answered 204 itself. */
  lemma AllowedIff(setup: Setup, incoming: Incoming, s: Stages)
    requires StagesOf(setup, incoming, s)
    ensures StatusOf(Decide(s).reply) == 204 <==> LetsPass(setup, incoming) || FailsWithStatus(setup, incoming, 204)
  {
    hide RunAll, PreRequestOrder, CustomAnswer, PolicyAnswer, LetsPass, FailsFirst, ContextAt, ContextOf;
    var order, ctx := PreRequestOrder(setup), ContextOf(incoming);
    PassedIff(setup, incoming, s);
    if s.chain.error.Some? {
      var i := FirstFailure(order, ctx);
    } else {
      ChainSucceedsIff(order, ctx);
      NoneFailsFirst(order, ctx);
    }
  }

  lemma NoneFailsFirst(order: seq<Plugin>, ctx: Context)
    requires forall i :: 0 <= i < |order| ==> order[i].run(ContextAt(order, ctx, i)).error.None?
    ensures forall i: nat :: !FailsFirst(order, ctx, i)
  {
  }

  /** Like every plugin of the repository, answers 403, 415 or 429 before it fails. */
  ghost predicate AnswersDenial(p: Plugin) {
    forall ctx :: p.run(ctx).error.Some? ==> p.run(ctx).ctx.statusCode in {403, 415, 429}
  }

  /** With such plugins the answer is 204 exactly when every stage lets the request pass. */
  lemma AllowedIffShipped(setup: Setup, incoming: Incoming, s: Stages)
    requires StagesOf(setup, incoming, s) && forall p :: p in PreRequestOrder(setup) ==> AnswersDenial(p)
    ensures StatusOf(Decide(s).reply) == 204 <==> LetsPass(setup, incoming)
  {
    hide RunAll, PreRequestOrder, CustomAnswer, PolicyAnswer, LetsPass, ContextAt, ContextOf;
    AllowedIff(setup, incoming, s);
    var order, ctx := PreRequestOrder(setup), ContextOf(incoming);
    forall i: nat | FailsFirst(order, ctx, i)
      ensures order[i].run(ContextAt(order, ctx, i)).ctx.statusCode != 204
    {
      assert order[i] in order;
    }
  }

  /** Who denied a request, and why: the first plugin that fails, else the first firing custom rule, else
      the first firing policy rule, else the scorer. */
  ghost predicate BlamedOn(setup: Setup, incoming: Incoming, id: string, reason: string) {
    var order, ctx, req := PreRequestOrder(setup), ContextOf(incoming), RequestOf(incoming);
    if exists i: nat :: FailsFirst(order, ctx, i) then PluginBlamed(order, ctx, id, reason)
    else if !CustomLetsPass(setup.lib, setup.custom, req) then CustomBlamed(setup.lib, setup.custom, req, id, reason)
    else if !PolicyLetsPass(setup.policy, ContextAt(order, ctx, |order|), req) then
      PolicyBlamed(setup.policy, ContextAt(order, ctx, |order|), req, id, reason)
    else
      && setup.scorer.Some? && setup.scorer.value(incoming).Some?
      && var score := setup.scorer.value(incoming).value;
         score.blocks && id == "appsec-" + score.modelName && reason == "ML anomaly: " + Join(score.reasons, "; ")
  }

  ghost predicate PluginBlamed(order: seq<Plugin>, ctx: Context, id: string, reason: string) {
    exists i: nat :: FailsFirst(order, ctx, i) && id == "plugin-chain" &&
      reason == "plugin " + order[i].name + " error: " + order[i].run(ContextAt(order, ctx, i)).error.value
  }

  ghost predicate CustomBlamed(lib: Library, rules: seq<CustomRule>, req: Request, id: string, reason: string) {
    exists i :: 0 <= i < |rules| && Fires(lib, rules[i], req) && id == rules[i].id && reason == rules[i].description &&
      forall k :: 0 <= k < i ==> !Fires(lib, rules[k], req)
  }

  ghost predicate PolicyBlamed(rules: seq<PolicyRule>, ctx: Context, req: Request, id: string, reason: string) {
    exists i :: 0 <= i < |rules| && PolicyFires(rules[i], RequestPhase, ctx, req) &&
      id == rules[i].id && reason == rules[i].reason &&
      forall k :: 0 <= k < i ==> !PolicyFires(rules[k], RequestPhase, ctx, req)
  }

  lemma CustomDenies(lib: Library, rules: seq<CustomRule>, req: Request, r: Result)
    requires CustomAnswer(lib, rules, req, r) && !Passes(r)
    ensures CustomBlamed(lib, rules, req, r.ruleID, r.reason)
  {
    hide Fires;
  }

  lemma PolicyDenies(rules: seq<PolicyRule>, ctx: Context, req: Request, r: Result)
    requires PolicyAnswer(rules, RequestPhase, ctx, req, r) && !Passes(r)
    ensures PolicyBlamed(rules, ctx, req, r.ruleID, r.reason)
  {
    hide PolicyFires;
  }

  /** A denied request is answered and recorded with the one that denied it. */
  lemma DenialBlamed(setup: Setup, incoming: Incoming, s: Stages)
    requires StagesOf(setup, incoming, s) && !LetsPass(setup, incoming)
    ensures BlamedOn(setup, incoming, Decide(s).ruleID, Decide(s).reason)
    ensures Decide(s).reply.FromPlugin? || Decide(s).reply == Forbidden(Decide(s).ruleID, Decide(s).reason)
  {
    hide RunAll, PreRequestOrder, CustomAnswer, PolicyAnswer, LetsPass, Passes, FailsFirst, ContextAt;
    hide RequestOf, ContextOf, CustomBlamed, PolicyBlamed, CustomLetsPass, PolicyLetsPass;
    var order, ctx, req := PreRequestOrder(setup), ContextOf(incoming), RequestOf(incoming);
    PassedIff(setup, incoming, s);
    if s.chain.error.Some? {
      var i := FirstFailure(order, ctx);
    } else {
      ChainSucceedsIff(order, ctx);
      NoneFailsFirst(order, ctx);
      ChainContext(order, ctx);
      CustomPassesIff(setup.lib, setup.custom, req, s.custom.value);
      if !Passes(s.custom.value) {
        CustomDenies(setup.lib, setup.custom, req, s.custom.value);
      } else {
        PolicyPassesIff(setup.policy, s.chain.ctx, req, s.policy.value);
        if !Passes(s.policy.value) {
          PolicyDenies(setup.policy, s.chain.ctx, req, s.policy.value);
        }
      }
    }
  }

  // ---------------------------------------------------------------- whole runs

  /** One handled request. Rules and plugins may change between requests. */
  datatype Handled = Handled(setup: Setup, incoming: Incoming, stages: Stages, duration: int)

  ghost predicate HandledRun(run: seq<Handled>) {
    forall i :: 0 <= i < |run| ==> StagesOf(run[i].setup, run[i].incoming, run[i].stages)
  }

  function RunLogs(at: Attached, run: seq<Handled>): Logs {
    if run == [] then NO_LOGS
    else
      var h := run[|run| - 1];
      Recorded(at, RunLogs(at, run[..|run| - 1]), RequestOf(h.incoming), Decide(h.stages), h.duration)
  }

  /** The requests that some stage did not let pass, in order. */
  ghost function Denied(run: seq<Handled>): seq<Handled> {
    if run == [] then []
    else
      var h := run[|run| - 1];
      AddIf(Denied(run[..|run| - 1]), !LetsPass(h.setup, h.incoming), h)
  }

  /** The name under which a decision is recorded. */
  ghost function RecordedID(h: Handled): string {
    var id := Decide(h.stages).ruleID; if id == "" then "unknown" else id
  }

  ghost predicate AuditMatches(audited: seq<AuditEvent>, denied: seq<Handled>) {
    && |audited| == |denied|
    && forall k :: 0 <= k < |denied| ==>
         var i := denied[k].incoming;
         audited[k] == AuditEvent(i.remoteIP, i.httpMethod + " " + i.uri, i.host,
                                  "rule=" + RecordedID(denied[k]) + " reason=" + Decide(denied[k].stages).reason)
  }

  ghost predicate EventsMatch(events: seq<BlockedEvent>, denied: seq<Handled>) {
    && |events| == |denied|
    && forall k :: 0 <= k < |denied| ==>
         var i := denied[k].incoming;
         events[k] == BlockedEvent(i.httpMethod, i.uri, i.remoteIP, RecordedID(denied[k]),
                                   Decide(denied[k].stages).reason)
  }

  /** A record keeps the request, at most 100 bytes of its body, and the decision on it. */
  ghost predicate LearnedMatches(learned: seq<Record>, run: seq<Handled>) {
    && |learned| == |run|
    && forall k :: 0 <= k < |run| ==>
         var r, req := learned[k], RequestOf(run[k].incoming);
         && r.req == req && r.duration == run[k].duration
         && r.snippet <= req.body && |r.snippet| == (if |req.body| < 100 then |req.body| else 100)
         && (r.verdict == AllowVerdict <==> LetsPass(run[k].setup, run[k].incoming))
         && r.ruleID == RecordedID(run[k]) && r.reason == Decide(run[k].stages).reason
  }

  /** Over any run, with learning attached: every request is learned, in order and with its verdict
      (when learning is enabled), and exactly the requests that some stage denies are audited,
      published and bridged, in order, by the consumers that are attached. */
  lemma {:induction false} RecordsConserved(at: Attached, run: seq<Handled>)
    requires HandledRun(run)
    ensures var logs := RunLogs(at, run);
            && (if at.learning && at.learningEnabled then LearnedMatches(logs.learned, run) else logs.learned == [])
            && (if at.learning && at.audit then AuditMatches(logs.audited, Denied(run)) else logs.audited == [])
            && (if at.learning && at.broker then EventsMatch(logs.published, Denied(run)) else logs.published == [])
            && (if at.learning && at.bridge then EventsMatch(logs.bridged, Denied(run)) else logs.bridged == [])
  {
    hide StagesOf, LetsPass, Decide, AuditMatches, EventsMatch, LearnedMatches, Audited, Published;
    if run == [] {
      EmptyLogsMatch();
    } else {
      var before, h := run[..|run| - 1], run[|run| - 1];
      var logs, denied := RunLogs(at, before), Denied(before);
      RecordsConserved(at, before);
      PassedIff(h.setup, h.incoming, h.stages);
      if at.learning && at.learningEnabled {
        LearnedStep(logs.learned, before, h);
        assert before + [h] == run;
      }
      if at.learning && at.audit {
        AuditStep(logs.audited, denied, h);
      }
      if at.learning && at.broker {
        EventStep(logs.published, denied, h);
      }
      if at.learning && at.bridge {
        EventStep(logs.bridged, denied, h);
      }
    }
  }

  lemma LearnedStep(learned: seq<Record>, before: seq<Handled>, h: Handled)
    requires LearnedMatches(learned, before) && StagesOf(h.setup, h.incoming, h.stages)
    ensures var req, d := RequestOf(h.incoming), Decide(h.stages);
            var entry := Record(req, Snippet(req.body), d.verdict, NamedRule(d.ruleID), d.reason, h.duration);
            LearnedMatches(learned + [entry], before + [h])
  {
    hide StagesOf, LetsPass, Decide;
    PassedIff(h.setup, h.incoming, h.stages);
  }

  lemma AuditStep(audited: seq<AuditEvent>, denied: seq<Handled>, h: Handled)
    requires AuditMatches(audited, denied)
    ensures AuditMatches(audited + [Audited(RequestOf(h.incoming), Decide(h.stages))], denied + [h])
  {
    hide Decide;
  }

  lemma EventStep(events: seq<BlockedEvent>, denied: seq<Handled>, h: Handled)
    requires EventsMatch(events, denied)
    ensures EventsMatch(events + [Published(RequestOf(h.incoming), Decide(h.stages))], denied + [h])
  {
    hide Decide;
  }

  lemma EmptyLogsMatch()
    ensures LearnedMatches([], []) && AuditMatches([], []) && EventsMatch([], [])
  {
  }

  /** In every run exactly the denied requests are audited, published and bridged. */
  ghost predicate DenialsTraced(at: Attached) {
    forall run :: HandledRun(run) ==>
      var logs := RunLogs(at, run);
      AuditMatches(logs.audited, Denied(run)) && EventsMatch(logs.published, Denied(run)) &&
      EventsMatch(logs.bridged, Denied(run))
  }

  /** Audit, broker and bridge are fed by the learning recorder: without it denials leave no trace. */
  lemma DenialsTracedIff(at: Attached)
    ensures DenialsTraced(at) <==> at.learning && at.audit && at.broker && at.bridge
  {
    hide RunLogs, Denied, HandledRun, AuditMatches, EventsMatch;
    forall run | HandledRun(run) && at.learning && at.audit && at.broker && at.bridge
      ensures var logs := RunLogs(at, run);
              AuditMatches(logs.audited, Denied(run)) && EventsMatch(logs.published, Denied(run)) &&
              EventsMatch(logs.bridged, Denied(run))
    {
      RecordsConserved(at, run);
    }
    var run := OneDenial();
    RecordsConserved(at, run);
    NothingMatchesNone(Denied(run));
  }

  lemma NothingMatchesNone(denied: seq<Handled>)
    requires |denied| == 1
    ensures !AuditMatches([], denied) && !EventsMatch([], denied)
  {
  }

  /** A custom rule without conditions. */
  const BLOCK_ALL: CustomRule := CustomRule("all", "", true, Block, [], "", "", [], [], [], "", "", "", "", "")

  /** The run of one request that this rule denies. */
  lemma OneDenial() returns (run: seq<Handled>)
    ensures HandledRun(run) && |Denied(run)| == 1
  {
    var setup := Setup([], Library((pattern, path) => false, (cidr, ip) => Outside), [BLOCK_ALL], [], None);
    var incoming := Incoming("GET", "/", "", "", "", "", "", "", false);
    var stages := Stages(Outcome(ContextOf(incoming), None), Some(Result(Block, "all", "")), None, None);
    assert Fires(setup.lib, setup.custom[0], RequestOf(incoming));
    assert CustomAnswer(setup.lib, setup.custom, RequestOf(incoming), stages.custom.value);
    assert PreRequestOrder(setup) == [];
    assert StagesOf(setup, incoming, stages);
    PassedIff(setup, incoming, stages);
    run := [Handled(setup, incoming, stages, 0)];
    assert run[..0] == [];
    assert Denied(run) == run;
  }
}
