/** The firewall manager with its nft backend: starting, blocking, and listing what was set up. Each
    command may fail; what nft does with one that works is part of the model. */
module FirewallManager {
  import opened Words
  import opened Firewall
  import opened FirewallRoundTrip

  datatype Config = Config(enabled: bool, defaultIn: string, managedPorts: seq<int>, blockList: seq<string>)

  /** Whether the n-th command works. */
  type Works = nat -> bool

  /** The rules that a start adds, in order. */
  function ConfiguredRules(cfg: Config): (rules: seq<Rule>)
    ensures |rules| == |cfg.managedPorts| + |cfg.blockList|
  {
    seq(|cfg.managedPorts|, i requires 0 <= i < |cfg.managedPorts| => ManagedRule(cfg.managedPorts[i])) +
    seq(|cfg.blockList|, i requires 0 <= i < |cfg.blockList| => BlockRule(cfg.blockList[i]))
  }

  /** Those of the first `n` rules whose command works; the commands are numbered from `first` on. */
  function AddedOf(rules: seq<Rule>, works: Works, first: nat, n: nat): seq<Rule>
    requires n <= |rules|
  {
    if n == 0 then []
    else AddedOf(rules, works, first, n - 1) + if works(first + n - 1) then [rules[n - 1]] else []
  }

  /** The first four commands create table and chain and set the two default policies; a start that
      fails in one of them goes no further. The default policy of the output is not in this chain. */
  function StartedRules(cfg: Config, works: Works): seq<Rule> {
    if cfg.enabled && works(0) && works(1) && works(2) && works(3)
    then AddedOf(ConfiguredRules(cfg), works, 4, |ConfiguredRules(cfg)|)
    else []
  }

  function StartedEntries(cfg: Config, works: Works): seq<Entry> {
    (if cfg.enabled && works(0) && works(1) && works(2) then [Default(cfg.defaultIn)] else [])
    + EntriesOf(StartedRules(cfg, works))
  }

  function SpecsOf(entries: seq<Entry>): (specs: seq<seq<string>>)
    ensures |specs| == |entries| && forall i :: 0 <= i < |entries| ==> specs[i] == SpecOf(entries[i])
  {
    seq(|entries|, i requires 0 <= i < |entries| => SpecOf(entries[i]))
  }

  const ADD_RULE: seq<string> := ["add", "rule", "ip", "waffynx", "input"]

  class Manager {
    /** What the rules in nft's chain `input` were added with, in order. */
    var chain: seq<seq<string>>

    constructor ()
      ensures chain == []
    {
      chain := [];
    }

    /** nft appends a rule to the chain when the command works. */
    method Run(args: seq<string>, works: bool) returns (ok: bool)
      requires ADD_RULE <= args
      modifies this
      ensures ok == works && chain == if works then old(chain) + [args[|ADD_RULE|..]] else old(chain)
    {
      if works {
        chain := chain + [args[|ADD_RULE|..]];
      }
      return works;
    }

    /** Prints the rule as arguments of nft. */
    method AddRule(r: Rule, works: bool) returns (ok: bool)
      modifies this
      ensures ok == works && chain == if works then old(chain) + [SpecOf(Added(r))] else old(chain)
    {
      var args := ADD_RULE;
      if r.protocol != "" {
        args := args + [r.protocol, "dport", Itoa(r.port)];
      }
      if r.source != "" {
        args := args + ["ip", "saddr", r.source];
      }
      args := args + [r.action];
      if r.comment != "" {
        args := args + ["comment", Quoted(r.comment)];
      }
      assert args[|ADD_RULE|..] == RuleArgs(r);
      ok := Run(args, works);
    }

    method SetDefaultInput(policy: string, works: bool) returns (ok: bool)
      modifies this
      ensures ok == works && chain == if works then old(chain) + [SpecOf(Default(policy))] else old(chain)
    {
      var args := ADD_RULE + ["counter", policy];
      assert args[|ADD_RULE|..] == SpecOf(Default(policy));
      ok := Run(args, works);
    }

    method BlockIP(ip: string, works: bool) returns (ok: bool)
      modifies this
      ensures ok == works && chain == if works then old(chain) + [SpecOf(Added(BlockRule(ip)))] else old(chain)
    {
      ok := AddRule(BlockRule(ip), works);
    }

    /** A rule that cannot be added is skipped. */
    method OpenPorts(cfg: Config, works: Works)
      modifies this
      ensures chain == old(chain) + AddedSpecs(cfg, works, |cfg.managedPorts|)
    {
      hide AddedSpecs, SpecOf, ConfiguredRules;
      NothingAdded(cfg, works);
      for i := 0 to |cfg.managedPorts|
        invariant chain == old(chain) + AddedSpecs(cfg, works, i)
      {
        OneMore(cfg, works, i);
        RuleAt(cfg, i);
        var added := AddRule(ManagedRule(cfg.managedPorts[i]), works(4 + i));
      }
    }

    method BlockListed(cfg: Config, works: Works, ghost before: seq<seq<string>>)
      requires chain == before + AddedSpecs(cfg, works, |cfg.managedPorts|)
      modifies this
      ensures chain == before + AddedSpecs(cfg, works, |cfg.managedPorts| + |cfg.blockList|)
    {
      hide AddedSpecs, SpecOf, ConfiguredRules;
      for i := 0 to |cfg.blockList|
        invariant chain == before + AddedSpecs(cfg, works, |cfg.managedPorts| + i)
      {
        ghost var n := |cfg.managedPorts| + i;
        OneMore(cfg, works, n);
        RuleAt(cfg, n);
        var blocked := BlockIP(cfg.blockList[i], works(4 + |cfg.managedPorts| + i));
        Regroup(before, AddedSpecs(cfg, works, n), [SpecOf(Added(BlockRule(cfg.blockList[i])))]);
      }
    }

    method AddConfigured(cfg: Config, works: Works)
      modifies this
      ensures chain == old(chain) + AddedSpecs(cfg, works, |cfg.managedPorts| + |cfg.blockList|)
    {
      hide AddedSpecs;
      ghost var before := chain;
      OpenPorts(cfg, works);
      BlockListed(cfg, works, before);
    }

    /** A failure in one of the first four commands ends the start. */
    method Start(cfg: Config, works: Works) returns (ok: bool)
      modifies this
      ensures ok <==> !cfg.enabled || (works(0) && works(1) && works(2) && works(3))
      ensures chain == old(chain) + SpecsOf(StartedEntries(cfg, works))
    {
      hide AddedSpecs, SpecOf, StartedEntries, SpecsOf;
      StartedSpecs(cfg, works);
      if !cfg.enabled {
        return true;
      }
      if !works(0) || !works(1) {
        return false;
      }
      ok := SetDefaultInput(cfg.defaultIn, works(2));
      if !ok {
        return false;
      }
      if !works(3) {
        return false;
      }
      AddConfigured(cfg, works);
      Regroup(old(chain), [SpecOf(Default(cfg.defaultIn))],
              AddedSpecs(cfg, works, |cfg.managedPorts| + |cfg.blockList|));
      ok := true;
    }

    /** Parses nft's listing of the table. */
    method Rules(v: TableView) returns (rules: seq<Rule>)
      requires |v.rules| == |chain| && forall i :: 0 <= i < |chain| ==> v.rules[i].spec == chain[i]
      ensures rules == ParseNFT(Listing(v))
    {
      rules := ParseNFTRules(Listing(v));
    }
  }

  /** What the first `n` configured rules add to the chain. */
  function AddedSpecs(cfg: Config, works: Works, n: nat): seq<seq<string>>
    requires n <= |cfg.managedPorts| + |cfg.blockList|
  {
    SpecsOf(EntriesOf(AddedOf(ConfiguredRules(cfg), works, 4, n)))
  }

  lemma Regroup(a: seq<seq<string>>, b: seq<seq<string>>, c: seq<seq<string>>)
    ensures a + b + c == a + (b + c)
  {
  }

  lemma NothingAdded(cfg: Config, works: Works)
    ensures AddedSpecs(cfg, works, 0) == []
  {
  }

  lemma OneMore(cfg: Config, works: Works, n: nat)
    requires n < |cfg.managedPorts| + |cfg.blockList|
    ensures AddedSpecs(cfg, works, n + 1) ==
            AddedSpecs(cfg, works, n) + if works(4 + n) then [SpecOf(Added(ConfiguredRules(cfg)[n]))] else []
  {
    hide ConfiguredRules, SpecOf;
  }

  lemma RuleAt(cfg: Config, n: nat)
    requires n < |cfg.managedPorts| + |cfg.blockList|
    ensures ConfiguredRules(cfg)[n] ==
            if n < |cfg.managedPorts| then ManagedRule(cfg.managedPorts[n])
            else BlockRule(cfg.blockList[n - |cfg.managedPorts|])
  {
  }

  lemma StartedSpecs(cfg: Config, works: Works)
    ensures SpecsOf(StartedEntries(cfg, works)) ==
            if !(cfg.enabled && works(0) && works(1) && works(2)) then []
            else [SpecOf(Default(cfg.defaultIn))] +
                 if works(3) then AddedSpecs(cfg, works, |cfg.managedPorts| + |cfg.blockList|) else []
  {
    hide AddedOf, SpecOf, ConfiguredRules;
  }

  // ---------------------------------------------------------------- what a started manager lists

  ghost predicate Sensible(cfg: Config) {
    && cfg.defaultIn in ACTIONS
    && (forall i :: 0 <= i < |cfg.managedPorts| ==> IsInt64(cfg.managedPorts[i]))
    && (forall i :: 0 <= i < |cfg.blockList| ==> IsAddressText(cfg.blockList[i]))
  }

  lemma {:induction false} AddedFrom(rules: seq<Rule>, works: Works, first: nat, n: nat)
    requires n <= |rules|
    ensures forall r :: r in AddedOf(rules, works, first, n) ==> r in rules
  {
    if n > 0 {
      AddedFrom(rules, works, first, n - 1);
    }
  }

  lemma StartedKnown(cfg: Config, works: Works)
    requires Sensible(cfg)
    ensures AllKnown(StartedEntries(cfg, works))
  {
    hide AddedOf;
    var rules := ConfiguredRules(cfg);
    AddedFrom(rules, works, 4, |rules|);
    var es, added := StartedEntries(cfg, works), StartedRules(cfg, works);
    forall i | 0 <= i < |es| ensures Known(es[i]) {
      if es[i].Added? {
        assert es[i].rule in added && es[i].rule in rules;
      }
    }
  }

  lemma {:induction false} ReportedAppend(a: seq<Entry>, b: seq<Entry>)
    ensures AllReported(a + b) == AllReported(a) + AllReported(b)
  {
    hide Reported;
    if b == [] {
      assert a + b == a;
    } else {
      ReportedAppend(a, b[..|b| - 1]);
      assert (a + b)[..|a + b| - 1] == a + b[..|b| - 1];
    }
  }

  /** A manager that has set its default policy on an empty chain lists, whatever counters and handles
      nft shows: the hook as a rule that accepts everything, the default policy as a rule for
      everything, and then the rules whose commands worked, none if the start ended before them. These
      come back in order, with the same chain, port, source, action and comment, exactly when none of
      them blocks the empty address. */
  lemma StartedListing(cfg: Config, works: Works, v: TableView)
    requires Sensible(cfg) && cfg.enabled && works(0) && works(1) && works(2)
    requires Plausible(v) && Lists(v.rules, StartedEntries(cfg, works))
    ensures var rules, listed := StartedRules(cfg, works), ParseNFT(Listing(v));
            && |listed| >= 2 && listed[..2] == [WholeChain("accept"), WholeChain(cfg.defaultIn)]
            && (ComeBack(listed[2..], rules) <==> BlockRule("") !in rules)
  {
    hide ParseNFT, Listing, ComeBack, Lists, AllKnown, StartedRules, EntriesOf, Known, Plausible;
    var es, rules := StartedEntries(cfg, works), EntriesOf(StartedRules(cfg, works));
    StartedKnown(cfg, works);
    ListingParses(v, es);
    RulesKnown(cfg.defaultIn, rules);
    ReportedAppend([Default(cfg.defaultIn)], rules);
    ReportedRules(StartedRules(cfg, works));
    OneReported(Default(cfg.defaultIn));
    assert ([WholeChain("accept")] + ([WholeChain(cfg.defaultIn)] + AllReported(rules)))[2..] == AllReported(rules);
  }

  lemma RulesKnown(policy: string, entries: seq<Entry>)
    requires AllKnown([Default(policy)] + entries)
    ensures AllKnown(entries)
  {
    hide Known;
    forall i | 0 <= i < |entries| ensures Known(entries[i]) {
      assert Known(([Default(policy)] + entries)[i + 1]);
    }
  }

  lemma OneReported(e: Entry)
    ensures AllReported([e]) == Reported(e)
  {
    assert [e][..0] == [];
  }
}
