/** The modd command's orchestration loop: setting up each rule block
    (common excludes, an unconditional prep run, its daemons), dispatching
    each batch of changes to the blocks (a config reload, or per block a
    filter, a prep run and a daemon restart), and reloading the
    configuration.

    The collaborators are oracles in `Env`: reading the config file, parsing
    it, running a block's prep commands, the watch roots of a config and
    whether the watcher fails to start. Every call is told when it happens on
    a clock that counts the batches received so far: the config is first read
    at clock 0, the setup of a run that starts after `p` batches happens at
    clock `p`, and batch `k` (counting from 0 over the whole session) is
    handled at clock `k + 1`. */
module Orchestrator {
  import opened Paths
  import opened Glob
  import opened Filter

  /** A rule block of the configuration. Variables are left out. */
  datatype Block = Block(includes: seq<string>, excludes: seq<string>, noCommonFilter: bool,
                         preps: seq<string>, daemons: seq<string>)

  /** What running a block's prep commands reports: success, a command that
      ran and failed with this output, or any other error. */
  datatype PrepOutcome = Succeeded | ProcError(output: string) | Failed(err: string)

  /** One run of a block's preps: when, which block (its index and its value
      at that time) and the changed paths, `None` for the unconditional run
      at setup. */
  datatype PrepCall = PrepCall(clock: nat, index: nat, block: Block, changes: Option<seq<string>>)

  datatype Env = Env(
    commonExcludes: seq<string>,
    readFile: nat -> Option<string>,
    parse: string -> Option<seq<Block>>,
    runPreps: PrepCall -> PrepOutcome,
    watchPaths: seq<Block> -> seq<string>,
    watchFails: (nat, seq<string>) -> bool)

  /** The command-line flags that steer the loop. */
  datatype Flags = Flags(file: string, noconf: bool, ignores: bool, prepOnly: bool)

  // =====================================================================
  // Prep outcomes and blocks

  /** Whether the rest of the block proceeds, and the error that ends the
      run: a command that failed only stops this block, any other error is
      fatal. The bell and the desktop notification are left out. */
  function PrepsAndNotify(o: PrepOutcome): (r: (bool, Option<string>))
    ensures r.0 <==> o.Succeeded?
    ensures r.1.Some? <==> o.Failed?
    ensures o.Failed? ==> r.1 == Some(o.err)
  {
    match o
    case Succeeded => (true, None)
    case ProcError(_) => (false, None)
    case Failed(e) => (false, Some(e))
  }

  /** The block with the common excludes appended to its excludes, unless it
      opts out. */
  function Augment(b: Block, common: seq<string>): (r: Block)
    ensures r.includes == b.includes && r.noCommonFilter == b.noCommonFilter
    ensures r.preps == b.preps && r.daemons == b.daemons
    ensures r.excludes == if b.noCommonFilter then b.excludes else b.excludes + common
  {
    if b.noCommonFilter then b else b.(excludes := b.excludes + common)
  }

  function AugmentAll(bs: seq<Block>, common: seq<string>): (r: seq<Block>)
    ensures |r| == |bs| && forall i :: 0 <= i < |bs| ==> r[i] == Augment(bs[i], common)
  {
    seq(|bs|, i requires 0 <= i < |bs| => Augment(bs[i], common))
  }

  lemma AnyMatchConcat(a: seq<string>, b: seq<string>, x: string)
    ensures AnyMatch(a + b, x) <==> AnyMatch(a, x) || AnyMatch(b, x)
  {
    if AnyMatch(a + b, x) {
      var i :| 0 <= i < |a + b| && Matches((a + b)[i], x);
      if i >= |a| {
        assert b[i - |a|] == (a + b)[i];
      }
    }
    if AnyMatch(a, x) {
      var i :| 0 <= i < |a| && Matches(a[i], x);
      assert (a + b)[i] == a[i];
    }
    if AnyMatch(b, x) {
      var i :| 0 <= i < |b| && Matches(b[i], x);
      assert (a + b)[|a| + i] == b[i];
    }
  }

  /** The common excludes only narrow a block: it keeps exactly the paths it
      kept before that no common exclude matches. */
  lemma AugmentNarrows(b: Block, common: seq<string>, x: string)
    ensures var r := Augment(b, common);
      Keep(x, r.includes, r.excludes) <==> Keep(x, b.includes, b.excludes) && (b.noCommonFilter || !AnyMatch(common, x))
  {
    AnyMatchConcat(b.excludes, common, x);
  }

  // =====================================================================
  // Setup

  /** The unconditional prep run of block `i` at setup, on the block with the
      common excludes added. */
  function SetupPrep(bs: seq<Block>, i: nat, env: Env, clock: nat): PrepOutcome
    requires i < |bs|
  {
    env.runPreps(PrepCall(clock, i, Augment(bs[i], env.commonExcludes), None))
  }

  /** The first block from `i` on whose setup prep fails fatally; `|bs|` when
      there is none. */
  function FirstFatal(bs: seq<Block>, i: nat, env: Env, clock: nat): (n: nat)
    requires i <= |bs|
    ensures i <= n <= |bs|
    ensures n < |bs| ==> SetupPrep(bs, n, env, clock).Failed?
    ensures forall j :: i <= j < n ==> !SetupPrep(bs, j, env, clock).Failed?
    decreases |bs| - i
  {
    if i == |bs| then i
    else if SetupPrep(bs, i, env, clock).Failed? then i
    else FirstFatal(bs, i + 1, env, clock)
  }

  /** The blocks once the first `n` have the common excludes added. */
  function AugmentPrefix(bs: seq<Block>, n: nat, common: seq<string>): (r: seq<Block>)
    ensures |r| == |bs|
    ensures forall j :: 0 <= j < |bs| ==> r[j] == if j < n then Augment(bs[j], common) else bs[j]
  {
    seq(|bs|, j requires 0 <= j < |bs| => if j < n then Augment(bs[j], common) else bs[j])
  }

  lemma AugmentPrefixStep(bs: seq<Block>, n: nat, common: seq<string>)
    requires n < |bs|
    ensures AugmentPrefix(bs, n, common)[n := Augment(bs[n], common)] == AugmentPrefix(bs, n + 1, common)
  {
  }

  /** One step of `FirstFatal`. */
  lemma FirstFatalStep(bs: seq<Block>, i: nat, env: Env, clock: nat)
    requires i < |bs|
    ensures SetupPrep(bs, i, env, clock).Failed? ==> FirstFatal(bs, i, env, clock) == i
    ensures !SetupPrep(bs, i, env, clock).Failed? ==> FirstFatal(bs, i, env, clock) == FirstFatal(bs, i + 1, env, clock)
  {
  }

  /** A configuration: its rule blocks, which setup rewrites in place. */
  class Config {
    const blocks: array<Block>

    constructor (bs: seq<Block>)
      ensures fresh(blocks) && blocks[..] == bs
    {
      blocks := new Block[|bs|](i requires 0 <= i < |bs| => bs[i]);
    }
  }

  /** Sets up the blocks in order: adds the common excludes to the block in
      place, runs its preps unconditionally, and starts its daemons unless in
      prep-only mode. A fatal prep error stops setup at that block; a failed
      command does not. `started[i]` tells whether block i's daemons were
      started. */
  method Setup(cnf: Config, env: Env, clock: nat, prepOnly: bool) returns (started: seq<bool>, fatal: Option<string>)
    modifies cnf.blocks
    ensures |started| == cnf.blocks.Length
    ensures var n := FirstFatal(old(cnf.blocks[..]), 0, env, clock);
      && (fatal.Some? <==> n < cnf.blocks.Length)
      && (n < cnf.blocks.Length ==> fatal == Some(SetupPrep(old(cnf.blocks[..]), n, env, clock).err))
      && (forall i :: 0 <= i < cnf.blocks.Length ==>
            cnf.blocks[i] == if i <= n then Augment(old(cnf.blocks[..])[i], env.commonExcludes) else old(cnf.blocks[..])[i])
      && (forall i :: 0 <= i < |started| ==> started[i] == (i < n && !prepOnly))
  {
    ghost var bs := cnf.blocks[..];
    started := seq(cnf.blocks.Length, _ => false);
    var i: nat := 0;
    while i < cnf.blocks.Length
      invariant i <= cnf.blocks.Length == |bs|
      invariant FirstFatal(bs, 0, env, clock) == FirstFatal(bs, i, env, clock)
      invariant cnf.blocks[..] == AugmentPrefix(bs, i, env.commonExcludes)
      invariant |started| == |bs|
      invariant forall j :: 0 <= j < |started| ==> started[j] == (j < i && !prepOnly)
    {
      var b := cnf.blocks[i];
      if !b.noCommonFilter {
        b := b.(excludes := b.excludes + env.commonExcludes);
      }
      assert b == Augment(bs[i], env.commonExcludes);
      AugmentPrefixStep(bs, i, env.commonExcludes);
      cnf.blocks[i] := b;
      assert cnf.blocks[..] == AugmentPrefix(bs, i + 1, env.commonExcludes);
      var r := PrepsAndNotify(env.runPreps(PrepCall(clock, i, b, None)));
      FirstFatalStep(bs, i, env, clock);
      assert env.runPreps(PrepCall(clock, i, b, None)) == SetupPrep(bs, i, env, clock);
      if r.1.Some? {
        assert FirstFatal(bs, 0, env, clock) == i;
        return started, r.1;
      }
      if !prepOnly {
        started := started[i := true];
      }
      i := i + 1;
    }
    assert FirstFatal(bs, 0, env, clock) == i;
    fatal := None;
  }

  // =====================================================================
  // One batch

  datatype BlockStep = Skip | Restart | Fatal(err: string)

  /** What block `i` does with a batch: a filter error or an empty filtered
      batch skips it, otherwise its preps run on the filtered paths and decide
      between a restart, a skip and a fatal error. */
  function StepBlock(b: Block, i: nat, batch: seq<string>, env: Env, clock: nat): BlockStep
  {
    if FirstMalformed(b.includes + b.excludes).Some? then Skip
    else
      var changed := Kept(batch, b.includes, b.excludes);
      if changed == [] then Skip
      else
        var r := PrepsAndNotify(env.runPreps(PrepCall(clock, i, b, Some(changed))));
        if r.1.Some? then Fatal(r.1.value) else if r.0 then Restart else Skip
  }

  /** A block is restarted exactly when its patterns all parse, the batch
      keeps some of its paths, and its preps on those paths succeed; it is
      fatal exactly when those preps fail with an error that is not a failed
      command. */
  lemma StepBlockCases(b: Block, i: nat, batch: seq<string>, env: Env, clock: nat)
    ensures var r := StepBlock(b, i, batch, env, clock);
      var changed := Kept(batch, b.includes, b.excludes);
      var o := env.runPreps(PrepCall(clock, i, b, Some(changed)));
      && (r == Restart <==> FirstMalformed(b.includes + b.excludes).None? && changed != [] && o.Succeeded?)
      && (r.Fatal? <==> FirstMalformed(b.includes + b.excludes).None? && changed != [] && o.Failed?)
  {
  }

  predicate Increasing(s: seq<nat>)
  {
    forall j, k :: 0 <= j < k < |s| ==> s[j] < s[k]
  }

  /** The blocks restarted, in order, and the fatal error if any. */
  datatype BatchResult = BatchResult(restarts: seq<nat>, fatal: Option<string>)

  /** What each block does with a batch, in block order. */
  function Steps(bs: seq<Block>, batch: seq<string>, env: Env, clock: nat): (r: seq<BlockStep>)
    ensures |r| == |bs|
    ensures forall i :: 0 <= i < |bs| ==> r[i] == StepBlock(bs[i], i, batch, env, clock)
  {
    seq(|bs|, i requires 0 <= i < |bs| => StepBlock(bs[i], i, batch, env, clock))
  }

  /** Blocks `i..` handle a batch in order, each taking its step; a fatal
      error ends the batch. */
  function BatchFrom(steps: seq<BlockStep>, i: nat): (r: BatchResult)
    requires i <= |steps|
    ensures forall j :: 0 <= j < |r.restarts| ==> i <= r.restarts[j] < |steps|
    ensures Increasing(r.restarts)
    decreases |steps| - i
  {
    if i == |steps| then BatchResult([], None)
    else match steps[i]
      case Skip => BatchFrom(steps, i + 1)
      case Restart =>
        var r := BatchFrom(steps, i + 1);
        BatchResult([i] + r.restarts, r.fatal)
      case Fatal(e) => BatchResult([], Some(e))
  }

  /** Block j is restarted exactly when its own step says so and no earlier
      block failed fatally: a skipped block, for a filter error or an empty
      batch or a failed command, does not stop the blocks after it. */
  lemma {:induction false} BatchRestartIff(steps: seq<BlockStep>, i: nat, j: nat)
    requires i <= |steps|
    ensures j in BatchFrom(steps, i).restarts <==>
      i <= j < |steps| && steps[j] == Restart && forall m :: i <= m < j ==> !steps[m].Fatal?
    decreases |steps| - i
  {
    if i < |steps| {
      BatchRestartIff(steps, i + 1, j);
    }
  }

  /** The batch ends with a fatal error exactly when some block fails
      fatally, and the error is the first such block's. */
  lemma {:induction false} BatchFatalIff(steps: seq<BlockStep>, i: nat)
    requires i <= |steps|
    ensures BatchFrom(steps, i).fatal.Some? <==> exists m :: i <= m < |steps| && steps[m].Fatal?
    ensures forall m :: i <= m < |steps| && steps[m].Fatal? && (forall l :: i <= l < m ==> !steps[l].Fatal?) ==>
      BatchFrom(steps, i).fatal == Some(steps[m].err)
    decreases |steps| - i
  {
    if i < |steps| {
      BatchFatalIff(steps, i + 1);
    }
  }

  function Prepend(rs: seq<nat>, r: BatchResult): BatchResult
  {
    BatchResult(rs + r.restarts, r.fatal)
  }

  lemma PrependPrepend(rs: seq<nat>, qs: seq<nat>, r: BatchResult)
    ensures Prepend(rs, Prepend(qs, r)) == Prepend(rs + qs, r)
  {
    ConcatAssoc(rs, qs, r.restarts);
  }

  /** One step of `BatchFrom`, case by case. */
  lemma BatchStep(steps: seq<BlockStep>, i: nat)
    requires i < |steps|
    ensures steps[i] == Skip ==> BatchFrom(steps, i) == BatchFrom(steps, i + 1)
    ensures steps[i] == Restart ==> BatchFrom(steps, i) == Prepend([i], BatchFrom(steps, i + 1))
    ensures steps[i].Fatal? ==> BatchFrom(steps, i) == BatchResult([], Some(steps[i].err))
  {
  }

  /** One turn of the loop over the blocks: a fatal step ends the batch with
      the restarts so far, any other step records its restart and moves on. */
  lemma BatchLoopStep(steps: seq<BlockStep>, i: nat, restarts: seq<nat>, step: BlockStep)
    requires i < |steps| && step == steps[i]
    requires BatchFrom(steps, 0) == Prepend(restarts, BatchFrom(steps, i))
    ensures step.Fatal? ==> BatchFrom(steps, 0) == BatchResult(restarts, Some(step.err))
    ensures !step.Fatal? ==>
      BatchFrom(steps, 0) == Prepend(restarts + (if step == Restart then [i] else []), BatchFrom(steps, i + 1))
  {
    BatchStep(steps, i);
    if step == Restart {
      PrependPrepend(restarts, [i], BatchFrom(steps, i + 1));
    } else if step == Skip {
      assert restarts + [] == restarts;
    }
  }

  /** The step of a block, from the outcome of its filter. */
  lemma StepOf(b: Block, i: nat, batch: seq<string>, env: Env, clock: nat, changed: seq<string>, err: Option<string>)
    requires changed == Kept(batch, b.includes, b.excludes) && err == FirstMalformed(b.includes + b.excludes)
    ensures err.Some? || changed == [] ==> StepBlock(b, i, batch, env, clock) == Skip
    ensures err.None? && changed != [] ==>
      var r := PrepsAndNotify(env.runPreps(PrepCall(clock, i, b, Some(changed))));
      StepBlock(b, i, batch, env, clock) == if r.1.Some? then Fatal(r.1.value) else if r.0 then Restart else Skip
  {
  }

  /** Block `i` takes its share of a batch: the paths its filter keeps, and
      when there are some, a run of its preps on them. */
  method HandleBlock(b: Block, i: nat, batch: seq<string>, env: Env, clock: nat) returns (step: BlockStep)
    ensures step == StepBlock(b, i, batch, env, clock)
  {
    var changed, err := Files(batch, b.includes, b.excludes);
    StepOf(b, i, batch, env, clock, changed, err);
    if err.Some? || changed == [] {
      return Skip;
    }
    var r := PrepsAndNotify(env.runPreps(PrepCall(clock, i, b, Some(changed))));
    if r.1.Some? {
      return Fatal(r.1.value);
    }
    step := if r.0 then Restart else Skip;
  }

  /** Hands a batch to each block in order, recording the blocks whose
      daemons are restarted; stops at a fatal prep error. */
  method DispatchBatch(cnf: Config, batch: seq<string>, env: Env, clock: nat) returns (restarts: seq<nat>, fatal: Option<string>)
    ensures BatchResult(restarts, fatal) == BatchFrom(Steps(cnf.blocks[..], batch, env, clock), 0)
  {
    ghost var steps := Steps(cnf.blocks[..], batch, env, clock);
    restarts := [];
    var i: nat := 0;
    while i < cnf.blocks.Length
      invariant i <= cnf.blocks.Length
      invariant BatchFrom(steps, 0) == Prepend(restarts, BatchFrom(steps, i))
    {
      var step := HandleBlock(cnf.blocks[i], i, batch, env, clock);
      BatchLoopStep(steps, i, restarts, step);
      if step.Fatal? {
        return restarts, Some(step.err);
      }
      if step == Restart {
        restarts := restarts + [i];
      }
      i := i + 1;
    }
    fatal := None;
  }

  // =====================================================================
  // The stream of batches

  /** How a run ends: with a newly parsed configuration to run next, by
      returning nothing (which ends the command with status 0), or by
      exiting the process with a status. */
  datatype RunEnd = Reload(blocks: seq<Block>) | Stop | Exit(status: nat)

  /** How a run ended, the blocks it restarted in order, and how many
      batches of the session had been received by then. */
  datatype Dispatched = Dispatched(end: RunEnd, restarts: seq<nat>, consumed: nat)

  /** The configuration read and parsed at `clock`, if both succeed. */
  function ReadConfig(env: Env, clock: nat): Option<seq<Block>>
  {
    match env.readFile(clock)
    case None => None
    case Some(text) => env.parse(text)
  }

  /** Batches from `k` on, until a reload, a fatal prep error, a nil batch or
      the end of the stream. A batch holding the watched config path reloads
      it instead of reaching the blocks; when reading or parsing fails the
      batch is dropped and the old blocks stay. */
  function DispatchFrom(bs: seq<Block>, watchconf: string, stream: seq<Option<seq<string>>>, k: nat, env: Env): (r: Dispatched)
    requires k <= |stream|
    ensures k <= r.consumed <= |stream|
    ensures r.end.Reload? ==> k < r.consumed
    ensures !r.end.Exit?
    ensures forall j :: 0 <= j < |r.restarts| ==> r.restarts[j] < |bs|
    decreases |stream| - k
  {
    if k == |stream| then Dispatched(Stop, [], k)
    else match stream[k]
      case None => Dispatched(Stop, [], k + 1)
      case Some(batch) =>
        if watchconf != "" && watchconf in batch then
          match ReadConfig(env, k + 1)
          case None => DispatchFrom(bs, watchconf, stream, k + 1, env)
          case Some(nbs) => Dispatched(Reload(nbs), [], k + 1)
        else
          var r := BatchFrom(Steps(bs, batch, env, k + 1), 0);
          if r.fatal.Some? then Dispatched(Stop, r.restarts, k + 1)
          else
            var d := DispatchFrom(bs, watchconf, stream, k + 1, env);
            Dispatched(d.end, r.restarts + d.restarts, d.consumed)
  }

  /** Without a watched config file no batch ever reloads. */
  lemma {:induction false} NoReloadWithoutWatchedConfig(bs: seq<Block>, stream: seq<Option<seq<string>>>, k: nat, env: Env)
    requires k <= |stream|
    ensures !DispatchFrom(bs, "", stream, k, env).end.Reload?
    decreases |stream| - k
  {
    if k < |stream| && stream[k].Some? {
      NoReloadWithoutWatchedConfig(bs, stream, k + 1, env);
    }
  }

  /** A batch holding the watched config reloads it when it reads and parses,
      without any block seeing the batch; otherwise the batch is dropped and
      the same blocks handle the next one. */
  lemma ConfigBatch(bs: seq<Block>, watchconf: string, stream: seq<Option<seq<string>>>, k: nat, env: Env)
    requires k < |stream| && stream[k].Some? && watchconf != "" && watchconf in stream[k].value
    ensures ReadConfig(env, k + 1).Some? ==>
      DispatchFrom(bs, watchconf, stream, k, env) == Dispatched(Reload(ReadConfig(env, k + 1).value), [], k + 1)
    ensures ReadConfig(env, k + 1).None? ==>
      DispatchFrom(bs, watchconf, stream, k, env) == DispatchFrom(bs, watchconf, stream, k + 1, env)
  {
  }

  /** A batch that does not touch the watched config restarts the blocks
      `BatchFrom` gives, and a fatal prep error stops the run there. */
  lemma BlockBatch(bs: seq<Block>, watchconf: string, stream: seq<Option<seq<string>>>, k: nat, env: Env)
    requires k < |stream| && stream[k].Some? && !(watchconf != "" && watchconf in stream[k].value)
    ensures var r := BatchFrom(Steps(bs, stream[k].value, env, k + 1), 0);
      var d := DispatchFrom(bs, watchconf, stream, k, env);
      && d.restarts[..|r.restarts|] == r.restarts
      && (r.fatal.Some? ==> d == Dispatched(Stop, r.restarts, k + 1))
  {
  }

  function Then(rs: seq<nat>, d: Dispatched): Dispatched
  {
    Dispatched(d.end, rs + d.restarts, d.consumed)
  }

  /** Restarts recorded before a run's remainder can be recorded in two
      steps. */
  lemma ThenThen(rs: seq<nat>, qs: seq<nat>, d: Dispatched)
    ensures Then(rs, Then(qs, d)) == Then(rs + qs, d)
  {
    ConcatAssoc(rs, qs, d.restarts);
  }

  /** One step of `DispatchFrom`, case by case. */
  lemma DispatchStep(bs: seq<Block>, watchconf: string, stream: seq<Option<seq<string>>>, k: nat, env: Env)
    requires k < |stream|
    ensures stream[k].None? ==> DispatchFrom(bs, watchconf, stream, k, env) == Dispatched(Stop, [], k + 1)
    ensures stream[k].Some? && watchconf != "" && watchconf in stream[k].value ==>
      DispatchFrom(bs, watchconf, stream, k, env) ==
        match ReadConfig(env, k + 1)
        case None => DispatchFrom(bs, watchconf, stream, k + 1, env)
        case Some(nbs) => Dispatched(Reload(nbs), [], k + 1)
    ensures stream[k].Some? && !(watchconf != "" && watchconf in stream[k].value) ==>
      var r := BatchFrom(Steps(bs, stream[k].value, env, k + 1), 0);
      DispatchFrom(bs, watchconf, stream, k, env) ==
        if r.fatal.Some? then Dispatched(Stop, r.restarts, k + 1)
        else Then(r.restarts, DispatchFrom(bs, watchconf, stream, k + 1, env))
  {
  }

  /** Handles batch `k` of the session: a batch holding the watched config
      reloads it, any other is dispatched to the blocks. `end` is how the run
      ends with this batch, if it does. */
  method HandleBatch(cnf: Config, watchconf: string, stream: seq<Option<seq<string>>>, k: nat, env: Env)
    returns (rs: seq<nat>, end: Option<RunEnd>)
    requires k < |stream| && stream[k].Some?
    ensures end.None? ==>
      DispatchFrom(cnf.blocks[..], watchconf, stream, k, env) == Then(rs, DispatchFrom(cnf.blocks[..], watchconf, stream, k + 1, env))
    ensures end.Some? ==> DispatchFrom(cnf.blocks[..], watchconf, stream, k, env) == Dispatched(end.value, rs, k + 1)
  {
    DispatchStep(cnf.blocks[..], watchconf, stream, k, env);
    var batch := stream[k].value;
    if watchconf != "" && watchconf in batch {
      var text := env.readFile(k + 1);
      if text.None? {
        return [], None;
      }
      var parsed := env.parse(text.value);
      if parsed.None? {
        return [], None;
      }
      return [], Some(Reload(parsed.value));
    }
    var fatal;
    rs, fatal := DispatchBatch(cnf, batch, env, k + 1);
    end := if fatal.Some? then Some(Stop) else None;
  }

  /** Receives batches from position `pos` of the session until the run
      ends. */
  method Dispatch(cnf: Config, watchconf: string, stream: seq<Option<seq<string>>>, pos: nat, env: Env) returns (d: Dispatched)
    requires pos <= |stream|
    ensures d == DispatchFrom(cnf.blocks[..], watchconf, stream, pos, env)
  {
    ghost var bs := cnf.blocks[..];
    var restarts: seq<nat> := [];
    var k := pos;
    while k < |stream|
      invariant pos <= k <= |stream|
      invariant DispatchFrom(bs, watchconf, stream, pos, env) == Then(restarts, DispatchFrom(bs, watchconf, stream, k, env))
      decreases |stream| - k
    {
      if stream[k].None? {
        DispatchStep(bs, watchconf, stream, k, env);
        return Dispatched(Stop, restarts, k + 1);
      }
      var rs, end := HandleBatch(cnf, watchconf, stream, k, env);
      ThenThen(restarts, rs, DispatchFrom(bs, watchconf, stream, k + 1, env));
      restarts := restarts + rs;
      if end.Some? {
        return Dispatched(end.value, restarts, k + 1);
      }
      k := k + 1;
    }
    d := Dispatched(Stop, restarts, k);
  }

  // =====================================================================
  // One run and the command

  /** The paths handed to the watcher: the config's watch roots, then the
      config file itself when it is watched. */
  function WatchList(bs: seq<Block>, watchconf: string, env: Env): (r: seq<string>)
    ensures forall p :: p in r <==> p in env.watchPaths(bs) || (p == watchconf && watchconf != "")
  {
    env.watchPaths(bs) + if watchconf != "" then [watchconf] else []
  }

  /** One run on the blocks `bs` starting after `pos` batches: listing the
      common excludes exits; setup; a fatal setup prep ends the run; prep-only
      mode exits with status 0; a watcher that fails to start exits with
      status 1; otherwise the batches are dispatched to the augmented
      blocks. */
  function RunSpec(bs: seq<Block>, watchconf: string, stream: seq<Option<seq<string>>>, pos: nat, env: Env, flags: Flags): (r: Dispatched)
    requires pos <= |stream|
    ensures pos <= r.consumed <= |stream|
    ensures r.end.Reload? ==> pos < r.consumed
    ensures r.end.Exit? ==> r.end.status <= 1
    ensures flags.prepOnly ==> r.restarts == [] && !r.end.Reload?
    ensures forall j :: 0 <= j < |r.restarts| ==> r.restarts[j] < |bs|
  {
    if flags.ignores then Dispatched(Exit(0), [], pos)
    else if FirstFatal(bs, 0, env, pos) < |bs| then Dispatched(Stop, [], pos)
    else if flags.prepOnly then Dispatched(Exit(0), [], pos)
    else
      var ab := AugmentAll(bs, env.commonExcludes);
      if env.watchFails(pos, WatchList(ab, watchconf, env)) then Dispatched(Exit(1), [], pos)
      else DispatchFrom(ab, watchconf, stream, pos, env)
  }

  /** A fatal prep error while setting up any block ends the run without a
      restart. */
  lemma SetupFatalStops(bs: seq<Block>, watchconf: string, stream: seq<Option<seq<string>>>, pos: nat, env: Env, flags: Flags, j: nat)
    requires pos <= |stream| && j < |bs| && !flags.ignores
    requires SetupPrep(bs, j, env, pos).Failed?
    ensures RunSpec(bs, watchconf, stream, pos, env, flags) == Dispatched(Stop, [], pos)
  {
  }

  /** One run of the command on `cnf`. */
  method Run(cnf: Config, watchconf: string, stream: seq<Option<seq<string>>>, pos: nat, env: Env, flags: Flags) returns (d: Dispatched)
    requires pos <= |stream|
    modifies cnf.blocks
    ensures d == RunSpec(old(cnf.blocks[..]), watchconf, stream, pos, env, flags)
  {
    if flags.ignores {
      return Dispatched(Exit(0), [], pos);
    }
    ghost var bs := cnf.blocks[..];
    var started, fatal := Setup(cnf, env, pos, flags.prepOnly);
    if fatal.Some? {
      return Dispatched(Stop, [], pos);
    }
    if flags.prepOnly {
      return Dispatched(Exit(0), [], pos);
    }
    assert cnf.blocks[..] == AugmentAll(bs, env.commonExcludes);
    var watchpaths := env.watchPaths(cnf.blocks[..]);
    if watchconf != "" {
      watchpaths := watchpaths + [watchconf];
    }
    assert watchpaths == WatchList(cnf.blocks[..], watchconf, env);
    if env.watchFails(pos, watchpaths) {
      return Dispatched(Exit(1), [], pos);
    }
    d := Dispatch(cnf, watchconf, stream, pos, env);
  }

  /** The exit status and every restart, run after run, from a run on `bs`
      after `pos` batches. */
  function ModdFrom(bs: seq<Block>, watchfile: string, stream: seq<Option<seq<string>>>, pos: nat, env: Env, flags: Flags): (r: (nat, seq<nat>))
    requires pos <= |stream|
    ensures r.0 <= 1
    decreases |stream| - pos
  {
    var d := RunSpec(bs, watchfile, stream, pos, env, flags);
    match d.end
    case Reload(nbs) =>
      var m := ModdFrom(nbs, watchfile, stream, d.consumed, env, flags);
      (m.0, d.restarts + m.1)
    case Stop => (0, d.restarts)
    case Exit(s) => (s, d.restarts)
  }

  /** One step of `ModdFrom`: a reload continues with the new blocks, any
      other end is the command's end. */
  lemma ModdFromStep(bs: seq<Block>, watchfile: string, stream: seq<Option<seq<string>>>, pos: nat, env: Env, flags: Flags)
    requires pos <= |stream|
    ensures var d := RunSpec(bs, watchfile, stream, pos, env, flags);
      var m := ModdFrom(bs, watchfile, stream, pos, env, flags);
      && (d.end.Reload? ==>
            m.0 == ModdFrom(d.end.blocks, watchfile, stream, d.consumed, env, flags).0
            && m.1 == d.restarts + ModdFrom(d.end.blocks, watchfile, stream, d.consumed, env, flags).1)
      && (d.end.Stop? ==> m == (0, d.restarts))
      && (d.end.Exit? ==> m == (d.end.status, d.restarts))
  {
  }

  /** A reload hands the rest of the command to the new blocks, after the
      restarts of the run that ended in it. */
  lemma ModdReloadStep(bs: seq<Block>, watchfile: string, stream: seq<Option<seq<string>>>, pos: nat, env: Env, flags: Flags,
                       before: seq<nat>)
    requires pos <= |stream| && RunSpec(bs, watchfile, stream, pos, env, flags).end.Reload?
    ensures var d := RunSpec(bs, watchfile, stream, pos, env, flags);
      var m := ModdFrom(bs, watchfile, stream, pos, env, flags);
      var next := ModdFrom(d.end.blocks, watchfile, stream, d.consumed, env, flags);
      m.0 == next.0 && before + m.1 == (before + d.restarts) + next.1
  {
    var d := RunSpec(bs, watchfile, stream, pos, env, flags);
    ModdFromStep(bs, watchfile, stream, pos, env, flags);
    ConcatAssoc(before, d.restarts, ModdFrom(d.end.blocks, watchfile, stream, d.consumed, env, flags).1);
  }

  /** The command: a config that cannot be read or parsed at start exits with
      status 1; otherwise runs follow each other while they end in a
      reload. */
  function ModdSpec(stream: seq<Option<seq<string>>>, env: Env, flags: Flags): (r: (nat, seq<nat>))
    ensures r.0 <= 1
    ensures ReadConfig(env, 0).None? ==> r.0 == 1 && r.1 == []
  {
    match ReadConfig(env, 0)
    case None => (1, [])
    case Some(bs) => ModdFrom(bs, if flags.noconf then "" else flags.file, stream, 0, env, flags)
  }

  /** Reads the config and runs on it, then on each reloaded config, until a
      run ends without a reload. */
  method Modd(stream: seq<Option<seq<string>>>, env: Env, flags: Flags) returns (status: nat, restarts: seq<nat>)
    ensures (status, restarts) == ModdSpec(stream, env, flags)
  {
    var text := env.readFile(0);
    if text.None? {
      return 1, [];
    }
    var parsed := env.parse(text.value);
    if parsed.None? {
      return 1, [];
    }
    var watchfile := flags.file;
    if flags.noconf {
      watchfile := "";
    }
    ghost var total := ModdSpec(stream, env, flags);
    assert total == ModdFrom(parsed.value, watchfile, stream, 0, env, flags);
    var cnf := new Config(parsed.value);
    var pos := 0;
    restarts := [];
    while true
      invariant pos <= |stream| && fresh(cnf.blocks)
      invariant total.0 == ModdFrom(cnf.blocks[..], watchfile, stream, pos, env, flags).0
      invariant total.1 == restarts + ModdFrom(cnf.blocks[..], watchfile, stream, pos, env, flags).1
      decreases |stream| - pos
    {
      ghost var bs := cnf.blocks[..];
      ModdFromStep(bs, watchfile, stream, pos, env, flags);
      var d := Run(cnf, watchfile, stream, pos, env, flags);
      if d.end.Reload? {
        ModdReloadStep(bs, watchfile, stream, pos, env, flags, restarts);
      }
      restarts := restarts + d.restarts;
      match d.end
      case Reload(nbs) =>
        cnf := new Config(nbs);
        pos := d.consumed;
      case Stop =>
        return 0, restarts;
      case Exit(s) =>
        return s, restarts;
    }
  }

  /** Prep-only mode restarts nothing and, once the config is read, always
      exits with status 0, even when a prep fails. */
  lemma PrepOnlyExitsZero(stream: seq<Option<seq<string>>>, env: Env, flags: Flags)
    requires flags.prepOnly && ReadConfig(env, 0).Some?
    ensures ModdSpec(stream, env, flags) == (0, [])
  {
  }

  /** With `--noconf` the config file is not watched, so the command is a
      single run. */
  lemma NoconfSingleRun(stream: seq<Option<seq<string>>>, env: Env, flags: Flags)
    requires flags.noconf && ReadConfig(env, 0).Some?
    ensures var d := RunSpec(ReadConfig(env, 0).value, "", stream, 0, env, flags);
      ModdSpec(stream, env, flags) == (if d.end.Exit? then d.end.status else 0, d.restarts)
  {
    var bs := ReadConfig(env, 0).value;
    if !flags.ignores && FirstFatal(bs, 0, env, 0) == |bs| && !flags.prepOnly {
      var ab := AugmentAll(bs, env.commonExcludes);
      NoReloadWithoutWatchedConfig(ab, stream, 0, env);
    }
  }
}
