/**
  Memoisation of `get_output` results keyed by the `Command` value.  The cache is an
  explicit map; running a command is a pure function parameter, which stands for the
  assumption that commands are deterministic within one build.  Locking is not modelled.
 */
module ResultCache {
  import opened Wrappers
  import opened Commands
  import opened Output

  /** Results of the commands run so far, keyed by command value. */
  type Cache = map<Command, ExecutionResult>

  /** The answer to one request: the result, the cache afterwards, and whether a process ran. */
  datatype Lookup = Lookup(result: ExecutionResult, cache: Cache, spawned: bool)

  /** Returns the cached result for `cmd`, or runs it once and records its result. */
  function GetOrExecute(cache: Cache, cmd: Command, run: Command -> ProcessOutcome): (l: Lookup)
    ensures l.spawned <==> cmd !in cache
    ensures cmd in cache ==> l.result == cache[cmd] && l.cache == cache
    ensures l.result == GetOutput(cmd, run(cmd)) || cmd in cache
    ensures l.cache.Keys == cache.Keys + {cmd}
    ensures l.cache[cmd] == l.result
    ensures forall k :: k in cache ==> l.cache[k] == cache[k]
  {
    if cmd in cache then Lookup(cache[cmd], cache, false)
    else
      var r := GetOutput(cmd, run(cmd));
      Lookup(r, cache[cmd := r], true)
  }

  /** Every entry is what running its command yields. */
  ghost predicate Faithful(cache: Cache, run: Command -> ProcessOutcome)
  {
    forall k :: k in cache ==> cache[k] == GetOutput(k, run(k))
  }

  /** A second request for the same command, however it was constructed, is answered from
      the cache with the identical result and runs no process. */
  lemma SecondRequestHits(cache: Cache, cmd: Command, run: Command -> ProcessOutcome)
    ensures !GetOrExecute(GetOrExecute(cache, cmd, run).cache, cmd, run).spawned
    ensures GetOrExecute(GetOrExecute(cache, cmd, run).cache, cmd, run).result
         == GetOrExecute(cache, cmd, run).result
  {
  }

  /** A command built from a list and one built from the equal tuple share one cache entry:
      requesting both runs at most one process. */
  lemma EqualListsShareEntry(cache: Cache, xs: seq<string>, hidden: bool, wd: Option<string>,
                             run: Command -> ProcessOutcome)
    ensures !GetOrExecute(GetOrExecute(cache, New(List(xs), false, hidden, wd), run).cache,
                          New(Tuple(xs), false, hidden, wd), run).spawned
    ensures GetOrExecute(GetOrExecute(cache, New(List(xs), false, hidden, wd), run).cache,
                         New(Tuple(xs), false, hidden, wd), run).result
         == GetOrExecute(cache, New(List(xs), false, hidden, wd), run).result
  {
    NewEqualIff(List(xs), false, hidden, wd, Tuple(xs), false, hidden, wd);
  }

  /** The distinct commands among the first `n` requests. */
  ghost function Distinct(cmds: seq<Command>, n: nat): set<Command>
    requires n <= |cmds|
  {
    set i | 0 <= i < n :: cmds[i]
  }

  /** One more request adds its command to the distinct commands seen. */
  lemma DistinctStep(cmds: seq<Command>, n: nat)
    requires n < |cmds|
    ensures Distinct(cmds, n + 1) == Distinct(cmds, n) + {cmds[n]}
  {
  }

  /** Serving one request from a faithful cache keeps it faithful and answers with what running
      the command yields. */
  lemma GetOrExecuteFaithful(cache: Cache, cmd: Command, run: Command -> ProcessOutcome)
    requires Faithful(cache, run)
    ensures Faithful(GetOrExecute(cache, cmd, run).cache, run)
    ensures GetOrExecute(cache, cmd, run).result == GetOutput(cmd, run(cmd))
  {
  }

  /** A request grows the cache by one entry exactly when it runs a process. */
  lemma GetOrExecuteSize(cache: Cache, cmd: Command, run: Command -> ProcessOutcome)
    ensures |GetOrExecute(cache, cmd, run).cache.Keys|
         == |cache.Keys| + (if GetOrExecute(cache, cmd, run).spawned then 1 else 0)
  {
    if cmd !in cache {
      assert GetOrExecute(cache, cmd, run).cache.Keys == cache.Keys + {cmd};
    }
  }

  /** The first `|results|` requests were each answered with what running their command yields. */
  ghost predicate Answered(cmds: seq<Command>, results: seq<ExecutionResult>, run: Command -> ProcessOutcome)
  {
    && |results| <= |cmds|
    && forall i :: 0 <= i < |results| ==> results[i] == GetOutput(cmds[i], run(cmds[i]))
  }

  lemma AnsweredStep(cmds: seq<Command>, results: seq<ExecutionResult>, r: ExecutionResult,
                     run: Command -> ProcessOutcome)
    requires Answered(cmds, results, run)
    requires |results| < |cmds|
    requires r == GetOutput(cmds[|results|], run(cmds[|results|]))
    ensures Answered(cmds, results + [r], run)
  {
  }

  /** No command occurs twice in `s`. */
  predicate NoDuplicates(s: seq<Command>)
  {
    forall i, j :: 0 <= i < j < |s| ==> s[i] != s[j]
  }

  /** `ran` lists each cached command exactly once. */
  ghost predicate RanExactly(ran: seq<Command>, cache: Cache)
  {
    && NoDuplicates(ran)
    && (forall c :: c in ran <==> c in cache)
    && |ran| == |cache.Keys|
  }

  /** Recording the command of a request when, and only when, it runs a process keeps `ran`
      listing the cached commands exactly once. */
  lemma RanStep(ran: seq<Command>, cache: Cache, cmd: Command, run: Command -> ProcessOutcome)
    requires RanExactly(ran, cache)
    ensures RanExactly(if GetOrExecute(cache, cmd, run).spawned then ran + [cmd] else ran,
                       GetOrExecute(cache, cmd, run).cache)
  {
    GetOrExecuteSize(cache, cmd, run);
  }

  /** The state after serving the first `n` requests: every answer is what its command yields,
      the cache holds exactly the distinct commands seen and faithful results for them, and
      `ran` lists each of those commands once. */
  ghost predicate Served(cmds: seq<Command>, n: nat, results: seq<ExecutionResult>, ran: seq<Command>,
                         cache: Cache, run: Command -> ProcessOutcome)
  {
    && n <= |cmds|
    && |results| == n
    && Answered(cmds, results, run)
    && cache.Keys == Distinct(cmds, n)
    && Faithful(cache, run)
    && RanExactly(ran, cache)
  }

  /** Serving request `n` through the cache extends the served state by one request. */
  lemma ServeStep(cmds: seq<Command>, n: nat, results: seq<ExecutionResult>, ran: seq<Command>,
                  cache: Cache, run: Command -> ProcessOutcome)
    requires Served(cmds, n, results, ran, cache, run)
    requires n < |cmds|
    ensures Served(cmds, n + 1, results + [GetOrExecute(cache, cmds[n], run).result],
                   if GetOrExecute(cache, cmds[n], run).spawned then ran + [cmds[n]] else ran,
                   GetOrExecute(cache, cmds[n], run).cache, run)
  {
    GetOrExecuteFaithful(cache, cmds[n], run);
    DistinctStep(cmds, n);
    RanStep(ran, cache, cmds[n], run);
    AnsweredStep(cmds, results, GetOrExecute(cache, cmds[n], run).result, run);
  }

  /** Serves the requests in order through one cache that starts empty, and also returns the
      commands for which a process ran, in the order they ran.  Every request gets what running
      its command yields; every distinct command ran, and none ran twice. */
  method RunAll(cmds: seq<Command>, run: Command -> ProcessOutcome)
    returns (results: seq<ExecutionResult>, ran: seq<Command>)
    ensures |results| == |cmds|
    ensures forall i :: 0 <= i < |cmds| ==> results[i] == GetOutput(cmds[i], run(cmds[i]))
    ensures NoDuplicates(ran)
    ensures forall c :: c in ran <==> c in Distinct(cmds, |cmds|)
    ensures |ran| == |Distinct(cmds, |cmds|)|
  {
    var cache: Cache := map[];
    results := [];
    ran := [];
    var n := 0;
    while n < |cmds|
      invariant Served(cmds, n, results, ran, cache, run)
    {
      var l := GetOrExecute(cache, cmds[n], run);
      ServeStep(cmds, n, results, ran, cache, run);
      if l.spawned {
        ran := ran + [cmds[n]];
      }
      results := results + [l.result];
      cache := l.cache;
      n := n + 1;
    }
  }
}
