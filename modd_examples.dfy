/** The orchestration loop on two rule blocks, one for Go sources and one
    for Python sources. */
module OrchestratorExamples {
  import opened Paths
  import opened Glob
  import opened Filter
  import opened FilterExamples
  import opened Orchestrator

  const GoBlock := Block(["*.go"], [], true, ["echo A"], ["serveA"])
  const PyBlock := Block(["*.py"], [], true, ["echo B"], ["serveB"])

  lemma GoBlockKeeps()
    ensures FirstMalformed(GoBlock.includes + GoBlock.excludes).None?
    ensures Kept(["x.go"], GoBlock.includes, GoBlock.excludes) == ["x.go"]
  {
    GoSuffix("x.go");
    assert "x.go"[1..] == ".go";
    OneMatch("*.go", "x.go");
    KeptOne("x.go", ["*.go"], []);
    assert GoBlock.includes + GoBlock.excludes == ["*.go"];
  }

  lemma PyBlockDrops()
    ensures Kept(["x.go"], PyBlock.includes, PyBlock.excludes) == []
  {
    assert "*.py" == "*" + ".py";
    StarSuffixMatches(".py", "x.go");
    OneMatch("*.py", "x.go");
    KeptOne("x.go", ["*.py"], []);
  }

  /** A batch touching only x.go runs the first block's preps and, when they
      succeed, restarts the first block alone, whatever the second block's
      preps would do. */
  lemma GoPythonBatch(env: Env, clock: nat)
    requires env.runPreps(PrepCall(clock, 0, GoBlock, Some(["x.go"]))).Succeeded?
    ensures BatchFrom(Steps([GoBlock, PyBlock], ["x.go"], env, clock), 0) == BatchResult([0], None)
  {
    GoBlockKeeps();
    PyBlockDrops();
    var steps := Steps([GoBlock, PyBlock], ["x.go"], env, clock);
    assert steps[0] == Restart;
    assert steps[1] == Skip;
    assert BatchFrom(steps, 1) == BatchFrom(steps, 2) == BatchResult([], None);
  }

  /** The whole command without a watched config file, on that config and a
      single batch touching x.go: both setup preps pass, the watcher starts,
      the first block is restarted once and the command ends with status 0. */
  lemma GoPythonSession(env: Env, flags: Flags)
    requires ReadConfig(env, 0) == Some([GoBlock, PyBlock])
    requires flags.noconf && !flags.ignores && !flags.prepOnly
    requires !SetupPrep([GoBlock, PyBlock], 0, env, 0).Failed? && !SetupPrep([GoBlock, PyBlock], 1, env, 0).Failed?
    requires !env.watchFails(0, WatchList([GoBlock, PyBlock], "", env))
    requires env.runPreps(PrepCall(1, 0, GoBlock, Some(["x.go"]))).Succeeded?
    ensures ModdSpec([Some(["x.go"])], env, flags) == (0, [0])
  {
    var bs := [GoBlock, PyBlock];
    var stream := [Some(["x.go"])];
    NoconfSingleRun(stream, env, flags);
    assert FirstFatal(bs, 0, env, 0) == 2 by {
      assert FirstFatal(bs, 1, env, 0) == 2;
    }
    assert AugmentAll(bs, env.commonExcludes) == bs;
    GoPythonBatch(env, 1);
    assert DispatchFrom(bs, "", stream, 0, env) == Dispatched(Stop, [0], 1);
  }
}
