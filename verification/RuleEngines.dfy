/** The two rule engines: operator-defined custom rules and policy rules. Both answer with the
    first enabled rule that matches. */
module RuleEngines {
  import opened Text
  import opened PluginChain
  import opened QueryScan

  datatype Action = Allow | Deny | Block | LogOnly

  datatype Request = Request(
    httpMethod: string, host: string, path: string, remoteIP: string,
    headers: map<string, seq<string>>, body: string)

  datatype Result = Result(action: Action, ruleID: string, reason: string)

  const NO_MATCH: Result := Result(Allow, "", "")

  /** Answers that let the request pass to the next stage. */
  predicate Passes(r: Result) {
    r.action == Allow || r.action == LogOnly
  }

  // ---------------------------------------------------------------- custom rules

  datatype CidrTest = BadCidr | Inside | Outside

  /** Library calls: shell-style path matching and CIDR membership of an address. */
  datatype Library = Library(glob: (string, string) -> bool, cidr: (string, string) -> CidrTest)

  datatype CustomRule = CustomRule(
    id: string, description: string, enabled: bool, action: Action,
    methods: seq<string>, pathPattern: string, pathExact: string,
    hosts: seq<string>, ips: seq<string>, ipCIDRs: seq<string>,
    headerName: string, headerValue: string, bodyContains: string,
    queryParam: string, queryValue: string)

  /** A header condition without a value holds also when the header is missing. */
  predicate HeaderMatches(rule: CustomRule, req: Request) {
    rule.headerName == "" || rule.headerValue == "" ||
    (rule.headerName in req.headers && rule.headerValue in req.headers[rule.headerName])
  }

  /** Every condition the rule states holds; malformed CIDRs are ignored. */
  ghost predicate Matches(lib: Library, rule: CustomRule, req: Request) {
    && (rule.methods == [] || req.httpMethod in rule.methods)
    && (rule.pathExact == "" || req.path == rule.pathExact)
    && (rule.pathPattern == "" || lib.glob(rule.pathPattern, req.path))
    && (rule.hosts == [] || req.host in rule.hosts)
    && (rule.ips == [] || req.remoteIP in rule.ips)
    && (forall c :: c in rule.ipCIDRs ==> lib.cidr(c, req.remoteIP) != Outside)
    && HeaderMatches(rule, req)
    && (rule.bodyContains == "" || Contains(req.body, rule.bodyContains))
    && (rule.queryParam == "" || QueryMatches(req.path, rule.queryParam, rule.queryValue))
  }

  method MatchRule(lib: Library, rule: CustomRule, req: Request) returns (matched: bool)
    ensures matched == Matches(lib, rule, req)
  {
    if |rule.methods| > 0 && req.httpMethod !in rule.methods {
      return false;
    }
    if rule.pathExact != "" && req.path != rule.pathExact {
      return false;
    }
    if rule.pathPattern != "" && !lib.glob(rule.pathPattern, req.path) {
      return false;
    }
    if |rule.hosts| > 0 && req.host !in rule.hosts {
      return false;
    }
    if |rule.ips| > 0 && req.remoteIP !in rule.ips {
      return false;
    }
    for i := 0 to |rule.ipCIDRs|
      invariant forall k :: 0 <= k < i ==> lib.cidr(rule.ipCIDRs[k], req.remoteIP) != Outside
    {
      var c := lib.cidr(rule.ipCIDRs[i], req.remoteIP);
      if c == BadCidr {
        continue;
      }
      if c == Outside {
        return false;
      }
    }
    if rule.headerName != "" {
      if rule.headerName !in req.headers {
        if rule.headerValue != "" {
          return false;
        }
      } else if rule.headerValue != "" && rule.headerValue !in req.headers[rule.headerName] {
        return false;
      }
    }
    if rule.bodyContains != "" && !Contains(req.body, rule.bodyContains) {
      return false;
    }
    if rule.queryParam != "" {
      matched := MatchQuery(req.path, rule.queryParam, rule.queryValue);
      return;
    }
    return true;
  }

  ghost predicate Fires(lib: Library, rule: CustomRule, req: Request) {
    rule.enabled && Matches(lib, rule, req)
  }

  /** The answer of the first rule that fires, None if none does. */
  ghost predicate CustomAnswer(lib: Library, rules: seq<CustomRule>, req: Request, r: Result) {
    || (r == NO_MATCH && forall i :: 0 <= i < |rules| ==> !Fires(lib, rules[i], req))
    || exists i :: 0 <= i < |rules| && Fires(lib, rules[i], req) &&
         r == Result(rules[i].action, rules[i].id, rules[i].description) &&
         forall k :: 0 <= k < i ==> !Fires(lib, rules[k], req)
  }

  class CustomEngine {
    var rules: seq<CustomRule>

    constructor ()
      ensures rules == []
    {
      rules := [];
    }

    method AddRule(r: CustomRule)
      modifies this
      ensures rules == old(rules) + [r]
    {
      rules := rules + [r];
    }

    /** Removes the first rule with this id, if there is one. */
    method RemoveRule(id: string)
      modifies this
      ensures rules == WithoutFirst(old(rules), id)
    {
      for i := 0 to |rules|
        invariant rules == old(rules)
        invariant forall k :: 0 <= k < i ==> rules[k].id != id
      {
        if rules[i].id == id {
          FirstIsRemoved(rules, id, i);
          rules := rules[..i] + rules[i + 1..];
          return;
        }
      }
      NoneIsRemoved(rules, id);
    }

    method Evaluate(lib: Library, req: Request) returns (r: Result)
      ensures CustomAnswer(lib, rules, req, r)
    {
      for i := 0 to |rules|
        invariant forall k :: 0 <= k < i ==> !Fires(lib, rules[k], req)
      {
        if !rules[i].enabled {
          continue;
        }
        var matched := MatchRule(lib, rules[i], req);
        if matched {
          return Result(rules[i].action, rules[i].id, rules[i].description);
        }
      }
      return NO_MATCH;
    }
  }

  ghost function WithoutFirst(rules: seq<CustomRule>, id: string): seq<CustomRule> {
    if rules == [] then []
    else if rules[0].id == id then rules[1..]
    else [rules[0]] + WithoutFirst(rules[1..], id)
  }

  lemma {:induction false} FirstIsRemoved(rules: seq<CustomRule>, id: string, i: nat)
    requires i < |rules| && rules[i].id == id && forall k :: 0 <= k < i ==> rules[k].id != id
    ensures WithoutFirst(rules, id) == rules[..i] + rules[i + 1..]
  {
    if i > 0 {
      FirstIsRemoved(rules[1..], id, i - 1);
    }
  }

  lemma {:induction false} NoneIsRemoved(rules: seq<CustomRule>, id: string)
    requires forall k :: 0 <= k < |rules| ==> rules[k].id != id
    ensures WithoutFirst(rules, id) == rules
  {
    if rules != [] {
      NoneIsRemoved(rules[1..], id);
    }
  }

  /** Removing a rule that was just added under a new id restores the list. */
  lemma {:induction false} RemoveUndoesAdd(rules: seq<CustomRule>, r: CustomRule)
    requires forall k :: 0 <= k < |rules| ==> rules[k].id != r.id
    ensures WithoutFirst(rules + [r], r.id) == rules
  {
    if rules == [] {
    } else {
      assert (rules + [r])[0] == rules[0] && (rules + [r])[1..] == rules[1..] + [r];
      RemoveUndoesAdd(rules[1..], r);
    }
  }

  /** The engine's answer is determined by the rules and the request. */
  lemma CustomAnswerUnique(lib: Library, rules: seq<CustomRule>, req: Request, r1: Result, r2: Result)
    requires CustomAnswer(lib, rules, req, r1) && CustomAnswer(lib, rules, req, r2)
    ensures r1 == r2
  {
    if !(forall i :: 0 <= i < |rules| ==> !Fires(lib, rules[i], req)) {
      var i :| 0 <= i < |rules| && Fires(lib, rules[i], req) &&
         r1 == Result(rules[i].action, rules[i].id, rules[i].description) &&
         forall k :: 0 <= k < i ==> !Fires(lib, rules[k], req);
      var j :| 0 <= j < |rules| && Fires(lib, rules[j], req) &&
         r2 == Result(rules[j].action, rules[j].id, rules[j].description) &&
         forall k :: 0 <= k < j ==> !Fires(lib, rules[k], req);
      assert i <= j && j <= i;
    }
  }

  /** A rule without conditions matches every request, and each condition decides for itself: here
      those on method, path and host. */
  lemma TargetConditionsDecide(lib: Library, rule: CustomRule, req: Request, texts: seq<string>, value: string)
    ensures Matches(lib, CustomRule(rule.id, rule.description, rule.enabled, rule.action,
                                    [], "", "", [], [], [], "", value, "", "", value), req)
    ensures Matches(lib, rule.(methods := texts), req) <==>
            Matches(lib, rule.(methods := []), req) && (texts == [] || req.httpMethod in texts)
    ensures Matches(lib, rule.(pathExact := value), req) <==>
            Matches(lib, rule.(pathExact := ""), req) && (value == "" || value == req.path)
    ensures Matches(lib, rule.(pathPattern := value), req) <==>
            Matches(lib, rule.(pathPattern := ""), req) && (value == "" || lib.glob(value, req.path))
    ensures Matches(lib, rule.(hosts := texts), req) <==>
            Matches(lib, rule.(hosts := []), req) && (texts == [] || req.host in texts)
  {
    hide Contains, QueryMatches, HeaderMatches;
    assert HeaderMatches(rule.(headerName := ""), req) by { NoHeaderAsked(rule.(headerName := ""), req); }
    NoHeaderAsked(CustomRule(rule.id, rule.description, rule.enabled, rule.action,
                             [], "", "", [], [], [], "", value, "", "", value), req);
    SameHeaderAsked(rule, rule.(methods := texts), rule.(methods := []), req);
    SameHeaderAsked(rule, rule.(pathExact := value), rule.(pathExact := ""), req);
    SameHeaderAsked(rule, rule.(pathPattern := value), rule.(pathPattern := ""), req);
    SameHeaderAsked(rule, rule.(hosts := texts), rule.(hosts := []), req);
  }

  lemma NoHeaderAsked(rule: CustomRule, req: Request)
    requires rule.headerName == ""
    ensures HeaderMatches(rule, req)
  {
  }

  lemma SameHeaderAsked(a: CustomRule, b: CustomRule, c: CustomRule, req: Request)
    requires a.headerName == b.headerName == c.headerName && a.headerValue == b.headerValue == c.headerValue
    ensures HeaderMatches(a, req) == HeaderMatches(b, req) == HeaderMatches(c, req)
  {
  }

  /** The same for the conditions on the client's address. */
  lemma AddressConditionsDecide(lib: Library, rule: CustomRule, req: Request, texts: seq<string>)
    ensures Matches(lib, rule.(ips := texts), req) <==>
            Matches(lib, rule.(ips := []), req) && (texts == [] || req.remoteIP in texts)
    ensures Matches(lib, rule.(ipCIDRs := texts), req) <==>
            Matches(lib, rule.(ipCIDRs := []), req) && forall c :: c in texts ==> lib.cidr(c, req.remoteIP) != Outside
  {
    hide Contains, QueryMatches, HeaderMatches;
    SameHeaderAsked(rule, rule.(ips := texts), rule.(ips := []), req);
    SameHeaderAsked(rule, rule.(ipCIDRs := texts), rule.(ipCIDRs := []), req);
  }

  /** The same for the conditions on header, body and query. */
  lemma ContentConditionsDecide(lib: Library, rule: CustomRule, req: Request, name: string, value: string)
    ensures Matches(lib, rule.(headerName := name, headerValue := value), req) <==>
            Matches(lib, rule.(headerName := ""), req) &&
            (name == "" || value == "" || (name in req.headers && value in req.headers[name]))
    ensures Matches(lib, rule.(bodyContains := value), req) <==>
            Matches(lib, rule.(bodyContains := ""), req) && (value == "" || Contains(req.body, value))
    ensures Matches(lib, rule.(queryParam := name, queryValue := value), req) <==>
            Matches(lib, rule.(queryParam := ""), req) && (name == "" || QueryMatches(req.path, name, value))
  {
    hide Contains, QueryMatches;
  }

  /** The answer of the first that fires. */
  ghost predicate FirstAnswers(fires: seq<bool>, answers: seq<Result>, r: Result)
    requires |fires| == |answers|
  {
    || (r == NO_MATCH && forall i :: 0 <= i < |fires| ==> !fires[i])
    || exists i :: 0 <= i < |fires| && fires[i] && r == answers[i] && forall k :: 0 <= k < i ==> !fires[k]
  }

  lemma FirstOrRest(fires: seq<bool>, answers: seq<Result>, r: Result)
    requires |fires| == |answers| > 0
    ensures FirstAnswers(fires, answers, r) <==>
            if fires[0] then r == answers[0] else FirstAnswers(fires[1..], answers[1..], r)
  {
    var fs, rs := fires[1..], answers[1..];
    if !fires[0] {
      forall i | 0 < i < |fires| ensures fires[i] == fs[i - 1] && answers[i] == rs[i - 1] {
      }
      if FirstAnswers(fires, answers, r) && !(forall i :: 0 <= i < |fires| ==> !fires[i]) {
        var i :| 0 <= i < |fires| && fires[i] && r == answers[i] && forall k :: 0 <= k < i ==> !fires[k];
        forall k | 0 <= k < i - 1 ensures !fs[k] {
          assert !fires[k + 1];
        }
        assert fs[i - 1];
      }
      if FirstAnswers(fs, rs, r) && !(forall i :: 0 <= i < |fs| ==> !fs[i]) {
        var i :| 0 <= i < |fs| && fs[i] && r == rs[i] && forall k :: 0 <= k < i ==> !fs[k];
        assert fires[i + 1] && r == answers[i + 1];
      }
    }
  }

  ghost function CustomFires(lib: Library, rules: seq<CustomRule>, req: Request): seq<bool> {
    seq(|rules|, i requires 0 <= i < |rules| => Fires(lib, rules[i], req))
  }

  ghost function CustomResults(rules: seq<CustomRule>): seq<Result> {
    seq(|rules|, i requires 0 <= i < |rules| => Result(rules[i].action, rules[i].id, rules[i].description))
  }

  lemma CustomAnswersFirst(lib: Library, rules: seq<CustomRule>, req: Request, r: Result)
    ensures CustomAnswer(lib, rules, req, r) <==> FirstAnswers(CustomFires(lib, rules, req), CustomResults(rules), r)
  {
    hide Fires;
    var fs, rs := CustomFires(lib, rules, req), CustomResults(rules);
    assert forall i :: 0 <= i < |rules| ==> fs[i] == Fires(lib, rules[i], req);
    if i :| 0 <= i < |rules| && fs[i] && r == rs[i] && (forall k :: 0 <= k < i ==> !fs[k]) {
      assert Fires(lib, rules[i], req);
    }
  }

  /** The first rule answers if it is enabled and matches, the rules behind it otherwise. */
  lemma FirstCustomRule(lib: Library, rule: CustomRule, rules: seq<CustomRule>, req: Request, r: Result)
    ensures CustomAnswer(lib, [], req, r) <==> r == Result(Allow, "", "")
    ensures CustomAnswer(lib, [rule] + rules, req, r) <==>
            if rule.enabled && Matches(lib, rule, req) then r == Result(rule.action, rule.id, rule.description)
            else CustomAnswer(lib, rules, req, r)
  {
    var all := [rule] + rules;
    assert Fires(lib, rule, req) <==> rule.enabled && Matches(lib, rule, req);
    hide Fires, Matches, FirstAnswers, CustomAnswer;
    CustomAnswersFirst(lib, all, req, r);
    CustomAnswersFirst(lib, rules, req, r);
    FirstOrRest(CustomFires(lib, all, req), CustomResults(all), r);
    assert CustomFires(lib, all, req)[1..] == CustomFires(lib, rules, req);
    assert CustomResults(all)[1..] == CustomResults(rules);
    assert CustomAnswer(lib, [], req, r) <==> r == NO_MATCH by { NoRulesNoAnswer(lib, req, r); }
  }

  lemma NoRulesNoAnswer(lib: Library, req: Request, r: Result)
    ensures CustomAnswer(lib, [], req, r) <==> r == NO_MATCH
  {
  }

  // ---------------------------------------------------------------- policy rules

  datatype PolicyPhase = RequestPhase | ResponsePhase

  /** `test` is the rule's match function on the plugins' context and the request, None when it has
      none. */
  datatype PolicyRule = PolicyRule(
    id: string, phase: PolicyPhase, enabled: bool, test: Option<(Context, Request) -> bool>, action: Action,
    reason: string)

  predicate PolicyFires(rule: PolicyRule, phase: PolicyPhase, ctx: Context, req: Request) {
    rule.enabled && rule.phase == phase && rule.test.Some? && rule.test.value(ctx, req)
  }

  ghost predicate PolicyAnswer(rules: seq<PolicyRule>, phase: PolicyPhase, ctx: Context, req: Request, r: Result) {
    || (r == NO_MATCH && forall i :: 0 <= i < |rules| ==> !PolicyFires(rules[i], phase, ctx, req))
    || exists i :: 0 <= i < |rules| && PolicyFires(rules[i], phase, ctx, req) &&
         r == Result(rules[i].action, rules[i].id, rules[i].reason) &&
         forall k :: 0 <= k < i ==> !PolicyFires(rules[k], phase, ctx, req)
  }

  class PolicyEngine {
    var rules: seq<PolicyRule>

    constructor ()
      ensures rules == []
    {
      rules := [];
    }

    method AddRule(r: PolicyRule)
      modifies this
      ensures rules == old(rules) + [r]
    {
      rules := rules + [r];
    }

    /** Removes the first rule with this id, if there is one. */
    method RemoveRule(id: string)
      modifies this
      ensures (forall k :: 0 <= k < |old(rules)| ==> old(rules)[k].id != id) ==> rules == old(rules)
      ensures forall i | 0 <= i < |old(rules)| && old(rules)[i].id == id &&
              (forall k :: 0 <= k < i ==> old(rules)[k].id != id) ::
                rules == old(rules)[..i] + old(rules)[i + 1..]
    {
      for i := 0 to |rules|
        invariant rules == old(rules)
        invariant forall k :: 0 <= k < i ==> rules[k].id != id
      {
        if rules[i].id == id {
          rules := rules[..i] + rules[i + 1..];
          return;
        }
      }
    }

    method Evaluate(ctx: Context, phase: PolicyPhase, req: Request) returns (r: Result)
      ensures PolicyAnswer(rules, phase, ctx, req, r)
    {
      for i := 0 to |rules|
        invariant forall k :: 0 <= k < i ==> !PolicyFires(rules[k], phase, ctx, req)
      {
        var rule := rules[i];
        if !rule.enabled || rule.phase != phase {
          continue;
        }
        if rule.test.Some? && rule.test.value(ctx, req) {
          return Result(rule.action, rule.id, rule.reason);
        }
      }
      return NO_MATCH;
    }
  }

  ghost function PolicyAllFires(rules: seq<PolicyRule>, phase: PolicyPhase, ctx: Context, req: Request): seq<bool> {
    seq(|rules|, i requires 0 <= i < |rules| => PolicyFires(rules[i], phase, ctx, req))
  }

  ghost function PolicyResults(rules: seq<PolicyRule>): seq<Result> {
    seq(|rules|, i requires 0 <= i < |rules| => Result(rules[i].action, rules[i].id, rules[i].reason))
  }

  lemma PolicyAnswersFirst(rules: seq<PolicyRule>, phase: PolicyPhase, ctx: Context, req: Request, r: Result)
    ensures PolicyAnswer(rules, phase, ctx, req, r) <==>
            FirstAnswers(PolicyAllFires(rules, phase, ctx, req), PolicyResults(rules), r)
  {
    hide PolicyFires;
    var fs, rs := PolicyAllFires(rules, phase, ctx, req), PolicyResults(rules);
    assert forall i :: 0 <= i < |rules| ==> fs[i] == PolicyFires(rules[i], phase, ctx, req);
    if i :| 0 <= i < |rules| && fs[i] && r == rs[i] && (forall k :: 0 <= k < i ==> !fs[k]) {
      assert PolicyFires(rules[i], phase, ctx, req);
    }
  }

  /** The first rule answers if it is enabled, of the phase, and its test holds; the rules behind it
      otherwise. */
  lemma FirstPolicyRule(rule: PolicyRule, rules: seq<PolicyRule>, phase: PolicyPhase, ctx: Context, req: Request,
                        r: Result)
    ensures PolicyAnswer([], phase, ctx, req, r) <==> r == Result(Allow, "", "")
    ensures var fires := rule.enabled && rule.phase == phase && rule.test.Some? && rule.test.value(ctx, req);
            PolicyAnswer([rule] + rules, phase, ctx, req, r) <==>
            if fires then r == Result(rule.action, rule.id, rule.reason) else PolicyAnswer(rules, phase, ctx, req, r)
  {
    var all := [rule] + rules;
    assert PolicyFires(rule, phase, ctx, req) <==>
           rule.enabled && rule.phase == phase && rule.test.Some? && rule.test.value(ctx, req);
    hide PolicyFires, FirstAnswers, PolicyAnswer;
    PolicyAnswersFirst(all, phase, ctx, req, r);
    PolicyAnswersFirst(rules, phase, ctx, req, r);
    FirstOrRest(PolicyAllFires(all, phase, ctx, req), PolicyResults(all), r);
    assert PolicyAllFires(all, phase, ctx, req)[1..] == PolicyAllFires(rules, phase, ctx, req);
    assert PolicyResults(all)[1..] == PolicyResults(rules);
    assert PolicyAnswer([], phase, ctx, req, r) <==> r == NO_MATCH by { NoPolicyNoAnswer(phase, ctx, req, r); }
  }

  lemma NoPolicyNoAnswer(phase: PolicyPhase, ctx: Context, req: Request, r: Result)
    ensures PolicyAnswer([], phase, ctx, req, r) <==> r == NO_MATCH
  {
  }
}
