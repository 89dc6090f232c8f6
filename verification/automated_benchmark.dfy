/** The automated endpoint benchmark: for each parameter set (size per
    document, documents per request) it ramps the number of simulated users
    up by a fixed step, one measured run per step, until a run fails, the
    throughput gain falls under 8%, or the next user count would pass 40. It
    then reports, per parameter set, the run with the highest throughput.

    Each run's measurement (requests per second and 90th-percentile latency,
    or nothing when the run or its metrics file failed) comes from an oracle
    sequence standing in for the external load generator. */
module AutomatedBenchmark {
  import opened Wrappers
  import opened Exceptions
  import opened PyInt

  /** No run is started with more users than this, except possibly the first. */
  const MaxUsers: int := 40
  /** The relative throughput gain under which the ramp stops. */
  const MinImprovement: real := 0.08
  /** Requests smaller than this many KB start two steps higher. */
  const SmallRequestKb: int := 10

  /** `(rps, p90_latency)` of one run, or `None` when either is missing. */
  type Measurement = Option<(real, real)>

  /** One row of the results table (the wall-clock start and end times are
      not modelled). */
  datatype Run = Run(sizePerDocKb: int, docsPerRequest: int, users: int, rps: real, p90LatencyMs: real)

  datatype StopReason =
    | MeasurementMissing
    | LowImprovement
    | UserLimit
      /** The oracle ran out before the loop stopped on its own. */
    | OracleExhausted

  datatype Ramp = Ramp(runs: seq<Run>, stop: StopReason)

  /** The fixed inputs of one ramp. */
  datatype RampConfig = RampConfig(sizePerDocKb: int, docsPerRequest: int, step: int)

  // ------------------------------------------------------- run_locust_test

  /** `request_size // size_per_doc`, which raises before any run starts when
      the size per document is zero. */
  function DocsPerRequest(requestSize: int, sizePerDoc: int): (r: Result<int, Exception>)
    ensures r.Failure? <==> sizePerDoc == 0
    ensures r.Failure? ==> r.error == ZeroDivisionError
    ensures r.Success? && sizePerDoc > 0 ==>
              r.value * sizePerDoc <= requestSize < (r.value + 1) * sizePerDoc
  {
    if sizePerDoc == 0 then Failure(ZeroDivisionError) else Success(FloorDiv(requestSize, sizePerDoc))
  }

  /** The request size the ramp sends is `size_per_doc * docs_per_request`, so
      the recomputed document count is the one the parameter set names. */
  lemma DocsPerRequestOfProduct(sizePerDoc: int, docsPerRequest: int)
    requires sizePerDoc != 0
    ensures DocsPerRequest(sizePerDoc * docsPerRequest, sizePerDoc) == Success(docsPerRequest)
  {
    var q := FloorDiv(sizePerDoc * docsPerRequest, sizePerDoc);
    if sizePerDoc > 0 {
      assert sizePerDoc * q <= sizePerDoc * docsPerRequest < sizePerDoc * (q + 1);
      MulCancel(sizePerDoc, q, docsPerRequest);
      MulCancel(sizePerDoc, docsPerRequest, q + 1);
    } else {
      assert (-sizePerDoc) * q <= (-sizePerDoc) * docsPerRequest < (-sizePerDoc) * (q + 1);
      MulCancel(-sizePerDoc, q, docsPerRequest);
      MulCancel(-sizePerDoc, docsPerRequest, q + 1);
    }
  }

  // ---------------------------------------------------- test_parameter_set

  /** The first user count: two steps above the configured start (but at
      least one) for requests under 10 KB, the configured start otherwise. */
  function StartUsers(sizePerDocKb: int, docsPerRequest: int, startUsers: int, step: int): (u: int)
    ensures sizePerDocKb * docsPerRequest < SmallRequestKb ==>
              u >= 1 && u >= startUsers + 2 * step && (u == 1 || u == startUsers + 2 * step)
    ensures sizePerDocKb * docsPerRequest >= SmallRequestKb ==> u == startUsers
  {
    if sizePerDocKb * docsPerRequest < SmallRequestKb then
      (if startUsers + 2 * step >= 1 then startUsers + 2 * step else 1)
    else startUsers
  }

  /** The improvement test: only a positive previous throughput is compared,
      and a relative gain under 8% stops the ramp. */
  predicate Stalls(previousRps: real, rps: real) {
    previousRps > 0.0 && (rps - previousRps) / previousRps < MinImprovement
  }

  /** The `while True` loop from `users` on, with `previousRps` the last
      recorded throughput (0 before the first run). A missing measurement
      ends the loop unrecorded; a present one is recorded before the stop
      checks, so the run that stops the ramp is in the results. */
  function RampFrom(c: RampConfig, users: int, previousRps: real, measurements: seq<Measurement>): (r: Ramp)
    ensures |r.runs| <= |measurements|
    decreases |measurements|
  {
    if |measurements| == 0 then Ramp([], OracleExhausted)
    else match measurements[0]
      case None => Ramp([], MeasurementMissing)
      case Some((rps, p90)) =>
        var run := Run(c.sizePerDocKb, c.docsPerRequest, users, rps, p90);
        if Stalls(previousRps, rps) then Ramp([run], LowImprovement)
        else if users + c.step > MaxUsers then Ramp([run], UserLimit)
        else
          var rest := RampFrom(c, users + c.step, rps, measurements[1..]);
          Ramp([run] + rest.runs, rest.stop)
  }

  /** `test_parameter_set`: raises at the first run when the size per
      document is zero, and otherwise ramps from the start user count. */
  function TestParameterSet(sizePerDocKb: int, docsPerRequest: int, startUsers: int, step: int,
                            measurements: seq<Measurement>): (r: Result<Ramp, Exception>)
    ensures r.Failure? <==> sizePerDocKb == 0
    ensures r.Failure? ==> r.error == ZeroDivisionError
    ensures r.Success? ==> |r.value.runs| <= |measurements|
  {
    if sizePerDocKb == 0 then Failure(ZeroDivisionError)
    else
      var c := RampConfig(sizePerDocKb, docsPerRequest, step);
      Success(RampFrom(c, StartUsers(sizePerDocKb, docsPerRequest, startUsers, step), 0.0, measurements))
  }

  /** Run `k` records exactly the `k`-th measurement, for the parameter set,
      at `users + k * step` users; the measurement that stops the loop as
      missing is the one right after the last recorded run. */
  lemma {:induction false} RampRecordsMeasurements(c: RampConfig, users: int, previousRps: real,
                                                   measurements: seq<Measurement>)
    ensures var r := RampFrom(c, users, previousRps, measurements);
            && (forall k :: 0 <= k < |r.runs| ==>
                  && measurements[k] == Some((r.runs[k].rps, r.runs[k].p90LatencyMs))
                  && r.runs[k].users == users + k * c.step
                  && r.runs[k].sizePerDocKb == c.sizePerDocKb
                  && r.runs[k].docsPerRequest == c.docsPerRequest)
            && (r.stop == MeasurementMissing ==> |r.runs| < |measurements| && measurements[|r.runs|].None?)
            && (r.stop == OracleExhausted ==> |r.runs| == |measurements|)
    decreases |measurements|
  {
    var r := RampFrom(c, users, previousRps, measurements);
    if |measurements| > 0 && measurements[0].Some? {
      var (rps, p90) := measurements[0].value;
      if !Stalls(previousRps, rps) && users + c.step <= MaxUsers {
        var rest := RampFrom(c, users + c.step, rps, measurements[1..]);
        RampRecordsMeasurements(c, users + c.step, rps, measurements[1..]);
        assert r.runs == [r.runs[0]] + rest.runs;
        forall k | 1 <= k < |r.runs|
          ensures measurements[k] == Some((r.runs[k].rps, r.runs[k].p90LatencyMs))
          ensures r.runs[k].users == users + k * c.step
        {
          assert r.runs[k] == rest.runs[k - 1];
          assert measurements[1..][k - 1] == measurements[k];
        }
        if |rest.runs| < |measurements[1..]| {
          assert measurements[1..][|rest.runs|] == measurements[|r.runs|];
        }
      }
    }
  }

  /** The throughput run `k` of a ramp was compared against: the one
      before the ramp for the first run, the previous run's otherwise. */
  function PrevRps(previousRps: real, runs: seq<Run>, k: nat): real
    requires k < |runs|
  {
    if k == 0 then previousRps else runs[k - 1].rps
  }

  /** Every run but the last passed both stop checks: it improved enough
      on the throughput before it and left room for one more step. */
  ghost predicate RunsPassed(c: RampConfig, previousRps: real, runs: seq<Run>) {
    forall k :: 0 <= k < |runs| - 1 ==>
      && !Stalls(PrevRps(previousRps, runs, k), runs[k].rps)
      && runs[k].users + c.step <= MaxUsers
  }

  /** Every run but the last of a ramp passed both stop checks. */
  lemma {:induction false} RampRunsPassed(c: RampConfig, users: int, previousRps: real,
                                          measurements: seq<Measurement>)
    ensures RunsPassed(c, previousRps, RampFrom(c, users, previousRps, measurements).runs)
    decreases |measurements|
  {
    var r := RampFrom(c, users, previousRps, measurements);
    if |measurements| > 0 && measurements[0].Some? {
      var (rps, p90) := measurements[0].value;
      if !Stalls(previousRps, rps) && users + c.step <= MaxUsers {
        var rest := RampFrom(c, users + c.step, rps, measurements[1..]);
        RampRunsPassed(c, users + c.step, rps, measurements[1..]);
        assert r.runs == [r.runs[0]] + rest.runs;
        forall k | 0 <= k < |r.runs| - 1
          ensures !Stalls(PrevRps(previousRps, r.runs, k), r.runs[k].rps)
          ensures r.runs[k].users + c.step <= MaxUsers
        {
          if k > 0 {
            assert r.runs[k] == rest.runs[k - 1];
            assert PrevRps(previousRps, r.runs, k) == PrevRps(rps, rest.runs, k - 1);
          }
        }
      }
    }
  }

  /** The stop reason matches the checks of the last recorded run, which come
      in the source's order: a `LowImprovement` stop follows a run that gained
      too little; a `UserLimit` stop follows a run that gained enough, after
      which one more step would pass the user limit; a stop for a missing
      measurement or an exhausted oracle follows a run that passed both, or
      ends a ramp that recorded nothing. */
  ghost predicate LastRunStops(c: RampConfig, previousRps: real, r: Ramp) {
    && (|r.runs| == 0 ==> r.stop == MeasurementMissing || r.stop == OracleExhausted)
    && (|r.runs| > 0 ==>
      var last := r.runs[|r.runs| - 1];
      var stalled := Stalls(PrevRps(previousRps, r.runs, |r.runs| - 1), last.rps);
      && (r.stop == LowImprovement <==> stalled)
      && (r.stop == UserLimit <==> !stalled && last.users + c.step > MaxUsers)
      && ((r.stop == MeasurementMissing || r.stop == OracleExhausted) <==>
            !stalled && last.users + c.step <= MaxUsers))
  }

  /** A ramp stops for the reason its last recorded run gives; one that
      recorded nothing stopped on the measurements. */
  lemma {:induction false} RampLastRunStops(c: RampConfig, users: int, previousRps: real,
                                            measurements: seq<Measurement>)
    ensures LastRunStops(c, previousRps, RampFrom(c, users, previousRps, measurements))
    decreases |measurements|
  {
    var r := RampFrom(c, users, previousRps, measurements);
    if |measurements| > 0 && measurements[0].Some? {
      var (rps, p90) := measurements[0].value;
      if !Stalls(previousRps, rps) && users + c.step <= MaxUsers {
        var rest := RampFrom(c, users + c.step, rps, measurements[1..]);
        RampLastRunStops(c, users + c.step, rps, measurements[1..]);
        assert r.runs == [r.runs[0]] + rest.runs && r.stop == rest.stop;
        if |rest.runs| > 0 {
          assert r.runs[|r.runs| - 1] == rest.runs[|rest.runs| - 1];
          assert PrevRps(previousRps, r.runs, |r.runs| - 1) == PrevRps(rps, rest.runs, |rest.runs| - 1);
        } else {
          assert rest.stop == MeasurementMissing || rest.stop == OracleExhausted;
          assert PrevRps(previousRps, r.runs, 0) == previousRps;
        }
      }
    }
  }

  /** The user counts of a ramp: consecutive runs differ by exactly one
      step, every run after the first has at most 40 users, and with a
      positive step there are at most `41 - users` runs once there are two. */
  ghost predicate UserSteps(step: int, users: int, runs: seq<Run>) {
    && (|runs| > 0 ==> runs[0].users == users)
    && (forall k :: 1 <= k < |runs| ==> runs[k].users == runs[k - 1].users + step)
    && (forall k :: 1 <= k < |runs| ==> runs[k].users <= MaxUsers)
    && (step > 0 && |runs| > 1 ==> |runs| <= MaxUsers + 1 - users)
  }

  /** The ramp from `users` keeps `UserSteps`, whatever the measurements. */
  lemma {:induction false} RampFromUsers(c: RampConfig, users: int, previousRps: real,
                                         measurements: seq<Measurement>)
    ensures UserSteps(c.step, users, RampFrom(c, users, previousRps, measurements).runs)
    decreases |measurements|
  {
    var runs := RampFrom(c, users, previousRps, measurements).runs;
    if |measurements| > 0 && measurements[0].Some? {
      var (rps, p90) := measurements[0].value;
      if !Stalls(previousRps, rps) && users + c.step <= MaxUsers {
        var rest := RampFrom(c, users + c.step, rps, measurements[1..]).runs;
        RampFromUsers(c, users + c.step, rps, measurements[1..]);
        assert runs == [runs[0]] + rest;
        forall k | 1 <= k < |runs|
          ensures runs[k].users == runs[k - 1].users + c.step
          ensures runs[k].users <= MaxUsers
        {
          assert runs[k] == rest[k - 1];
          if k > 1 { assert runs[k - 1] == rest[k - 2]; }
        }
      }
    }
  }

  /** The ramp of a parameter set starts at the start user count and keeps
      the user-count properties of `RampFromUsers`, whatever the
      measurements are. */
  lemma RampUsers(sizePerDocKb: int, docsPerRequest: int, startUsers: int, step: int,
                  measurements: seq<Measurement>)
    requires sizePerDocKb != 0
    ensures var first := StartUsers(sizePerDocKb, docsPerRequest, startUsers, step);
            var runs := TestParameterSet(sizePerDocKb, docsPerRequest, startUsers, step, measurements).value.runs;
            && (|runs| > 0 ==> runs[0].users == first)
            && (forall k :: 0 <= k < |runs| - 1 ==> runs[k + 1].users == runs[k].users + step)
            && (forall k :: 1 <= k < |runs| ==> runs[k].users <= MaxUsers)
            && (step > 0 ==> |runs| <= 1 || |runs| <= MaxUsers + 1 - first)
  {
    var first := StartUsers(sizePerDocKb, docsPerRequest, startUsers, step);
    RampFromUsers(RampConfig(sizePerDocKb, docsPerRequest, step), first, 0.0, measurements);
  }

  /** A ramp starts with no previous throughput, so its first run never
      stops it for low improvement: such a stop needs at least two runs,
      the last gaining under 8% over a positive previous throughput. */
  lemma FirstRunNeverStalls(sizePerDocKb: int, docsPerRequest: int, startUsers: int, step: int,
                            measurements: seq<Measurement>)
    requires sizePerDocKb != 0
    ensures var r := TestParameterSet(sizePerDocKb, docsPerRequest, startUsers, step, measurements).value;
            r.stop == LowImprovement ==>
              && |r.runs| >= 2
              && r.runs[|r.runs| - 2].rps > 0.0
              && r.runs[|r.runs| - 1].rps < r.runs[|r.runs| - 2].rps * (1.0 + MinImprovement)
  {
    var c := RampConfig(sizePerDocKb, docsPerRequest, step);
    var first := StartUsers(sizePerDocKb, docsPerRequest, startUsers, step);
    var r := RampFrom(c, first, 0.0, measurements);
    RampLastRunStops(c, first, 0.0, measurements);
    if r.stop == LowImprovement && |r.runs| >= 2 {
      var p := r.runs[|r.runs| - 2].rps;
      var x := r.runs[|r.runs| - 1].rps;
      assert (x - p) / p < MinImprovement;
      assert x - p < MinImprovement * p;
    }
  }

  /** An endpoint that always reports zero throughput is never compared, so
      with a non-positive step the ramp never stops by itself: it records
      every measurement it is given. */
  lemma ZeroThroughputRunsForever(c: RampConfig, users: int, measurements: seq<Measurement>)
    requires c.step <= 0 && users <= MaxUsers
    requires forall k :: 0 <= k < |measurements| ==> measurements[k].Some? && measurements[k].value.0 == 0.0
    ensures RampFrom(c, users, 0.0, measurements).stop == OracleExhausted
    ensures |RampFrom(c, users, 0.0, measurements).runs| == |measurements|
    decreases |measurements|
  {
    if |measurements| > 0 {
      ZeroThroughputRunsForever(c, users + c.step, measurements[1..]);
    }
  }

  // ------------------------------------------------------------------ main

  /** Python `max(runs, key=rps)`: the index of the first run with the
      highest throughput. */
  function BestRun(runs: seq<Run>): (i: nat)
    requires |runs| > 0
    ensures i < |runs|
    ensures forall j :: 0 <= j < |runs| ==> runs[j].rps <= runs[i].rps
    ensures forall j :: 0 <= j < i ==> runs[j].rps < runs[i].rps
    decreases |runs|
  {
    if |runs| == 1 then 0
    else
      var b := BestRun(runs[..|runs| - 1]);
      if runs[|runs| - 1].rps > runs[b].rps then |runs| - 1 else b
  }

  /** The recorded runs of one parameter set, in order. */
  function RunsOf(all: seq<Run>, sizePerDocKb: int, docsPerRequest: int): (rs: seq<Run>)
    ensures forall r :: r in rs <==> r in all && r.sizePerDocKb == sizePerDocKb && r.docsPerRequest == docsPerRequest
    ensures |rs| <= |all|
  {
    if |all| == 0 then []
    else
      var rest := RunsOf(all[1..], sizePerDocKb, docsPerRequest);
      assert forall r :: r in all <==> r == all[0] || r in all[1..];
      if all[0].sizePerDocKb == sizePerDocKb && all[0].docsPerRequest == docsPerRequest then [all[0]] + rest
      else rest
  }

  /** The summary table: for every parameter set with recorded runs, its
      best run. */
  function Summary(paramSets: seq<(int, int)>, all: seq<Run>): (rows: seq<Run>)
    ensures |rows| <= |paramSets|
  {
    if |paramSets| == 0 then []
    else
      var (s, d) := paramSets[0];
      var rs := RunsOf(all, s, d);
      (if |rs| > 0 then [rs[BestRun(rs)]] else []) + Summary(paramSets[1..], all)
  }

  /** Every summary row is a recorded run of a requested parameter set, and
      no recorded run of the same parameter set is faster. */
  lemma {:induction false} SummaryRowsAreBest(paramSets: seq<(int, int)>, all: seq<Run>)
    ensures forall row :: row in Summary(paramSets, all) ==>
              && row in all
              && (row.sizePerDocKb, row.docsPerRequest) in paramSets
              && (forall r :: (r in all && r.sizePerDocKb == row.sizePerDocKb &&
                    r.docsPerRequest == row.docsPerRequest) ==> r.rps <= row.rps)
    decreases |paramSets|
  {
    if |paramSets| > 0 {
      var (s, d) := paramSets[0];
      var rs := RunsOf(all, s, d);
      SummaryRowsAreBest(paramSets[1..], all);
      var rows := Summary(paramSets, all);
      var tail := Summary(paramSets[1..], all);
      forall row | row in rows
        ensures row in all && (row.sizePerDocKb, row.docsPerRequest) in paramSets
        ensures forall r :: (r in all && r.sizePerDocKb == row.sizePerDocKb &&
                  r.docsPerRequest == row.docsPerRequest) ==> r.rps <= row.rps
      {
        if row !in tail {
          var i := BestRun(rs);
          assert row == rs[i];
          assert rs[i] in rs;
          forall r | r in all && r.sizePerDocKb == s && r.docsPerRequest == d
            ensures r.rps <= row.rps
          {
            assert r in rs;
            var j :| 0 <= j < |rs| && rs[j] == r;
          }
        } else {
          assert (row.sizePerDocKb, row.docsPerRequest) in paramSets[1..];
        }
      }
    }
  }

  /** Every requested parameter set with recorded runs has its best run in
      the summary. */
  lemma {:induction false} SummaryCoversEverySet(paramSets: seq<(int, int)>, all: seq<Run>, k: nat)
    requires k < |paramSets|
    ensures var rs := RunsOf(all, paramSets[k].0, paramSets[k].1);
            |rs| > 0 ==> rs[BestRun(rs)] in Summary(paramSets, all)
    decreases |paramSets|
  {
    var rs := RunsOf(all, paramSets[k].0, paramSets[k].1);
    var rs0 := RunsOf(all, paramSets[0].0, paramSets[0].1);
    var head := if |rs0| > 0 then [rs0[BestRun(rs0)]] else [];
    var tail := Summary(paramSets[1..], all);
    assert Summary(paramSets, all) == head + tail;
    if |rs| > 0 {
      if k == 0 {
        assert (head + tail)[0] == rs[BestRun(rs)];
      } else {
        SummaryCoversEverySet(paramSets[1..], all, k - 1);
        assert paramSets[1..][k - 1] == paramSets[k];
        assert rs[BestRun(rs)] in tail;
      }
    }
  }

  /** `SummaryCoversEverySet` for all parameter sets at once. */
  lemma SummaryCoversAllSets(paramSets: seq<(int, int)>, all: seq<Run>)
    ensures forall k :: 0 <= k < |paramSets| && |RunsOf(all, paramSets[k].0, paramSets[k].1)| > 0 ==>
              RunsOf(all, paramSets[k].0, paramSets[k].1)[BestRun(RunsOf(all, paramSets[k].0, paramSets[k].1))]
                in Summary(paramSets, all)
  {
    forall k | 0 <= k < |paramSets| && |RunsOf(all, paramSets[k].0, paramSets[k].1)| > 0
      ensures RunsOf(all, paramSets[k].0, paramSets[k].1)[BestRun(RunsOf(all, paramSets[k].0, paramSets[k].1))]
                in Summary(paramSets, all)
    {
      SummaryCoversEverySet(paramSets, all, k);
    }
  }

  /** The outcome of the whole benchmark: a crash (a zero size per document
      raises out of `main` before anything is saved), an oracle that ran out,
      or all recorded runs with the summary. */
  datatype Outcome =
    | Crashed(error: Exception)
    | Unfinished
    | Completed(results: seq<Run>, summary: seq<Run>)

  /** The ramps of `paramSets` in order, each reading its measurements from
      `oracle[k]`, with the recorded runs concatenated; `None` when a ramp ran
      out of measurements, after which nothing is known. */
  function RunAll(paramSets: seq<(int, int)>, startUsers: int, step: int,
                  oracle: seq<seq<Measurement>>): (o: Result<Option<seq<Run>>, Exception>)
    requires |oracle| == |paramSets|
    ensures (forall k :: 0 <= k < |paramSets| ==> paramSets[k].0 != 0) ==> o.Success?
    ensures o.Failure? ==> o.error == ZeroDivisionError && exists k :: 0 <= k < |paramSets| && paramSets[k].0 == 0
    ensures o.Success? && o.value.Some? ==>
              && (forall k :: 0 <= k < |paramSets| ==> paramSets[k].0 != 0)
              && (forall r :: r in o.value.value ==> (r.sizePerDocKb, r.docsPerRequest) in paramSets)
    decreases |paramSets|
  {
    if |paramSets| == 0 then Success(Some([]))
    else
      var (s, d) := paramSets[0];
      match TestParameterSet(s, d, startUsers, step, oracle[0])
      case Failure(e) => Failure(e)
      case Success(here) =>
        if here.stop == OracleExhausted then Success(None)
        else
          var rest := RunAll(paramSets[1..], startUsers, step, oracle[1..]);
          assert forall k :: 1 <= k < |paramSets| ==> paramSets[k] == paramSets[1..][k - 1];
          if rest.Failure? then rest
          else if rest.value.None? then Success(None)
          else
            RampRecordsMeasurements(RampConfig(s, d, step), StartUsers(s, d, startUsers, step), 0.0, oracle[0]);
            assert forall r :: r in here.runs ==> r.sizePerDocKb == s && r.docsPerRequest == d;
            Success(Some(here.runs + rest.value.value))
  }

  /** The ramp of parameter set `k` runs to completion: its size is not zero
      and its measurements did not run out. */
  ghost predicate RampCompletes(paramSets: seq<(int, int)>, startUsers: int, step: int,
                                oracle: seq<seq<Measurement>>, k: nat)
    requires |oracle| == |paramSets| && k < |paramSets|
  {
    paramSets[k].0 != 0 &&
    TestParameterSet(paramSets[k].0, paramSets[k].1, startUsers, step, oracle[k]).value.stop != OracleExhausted
  }

  /** The ramp of parameter set `k` ran out of measurements, after every
      earlier set completed its ramp. */
  ghost predicate FirstExhausted(paramSets: seq<(int, int)>, startUsers: int, step: int,
                                 oracle: seq<seq<Measurement>>, k: nat)
    requires |oracle| == |paramSets|
  {
    && k < |paramSets|
    && (forall j :: 0 <= j < k ==> RampCompletes(paramSets, startUsers, step, oracle, j))
    && paramSets[k].0 != 0
    && TestParameterSet(paramSets[k].0, paramSets[k].1, startUsers, step, oracle[k]).value.stop == OracleExhausted
  }

  /** The runs of every parameter set's ramp, concatenated in order, as
      `all_results.extend` collects them. */
  ghost function RampRuns(paramSets: seq<(int, int)>, startUsers: int, step: int,
                          oracle: seq<seq<Measurement>>): seq<Run>
    requires |oracle| == |paramSets|
    requires forall k :: 0 <= k < |paramSets| ==> paramSets[k].0 != 0
    decreases |paramSets|
  {
    if |paramSets| == 0 then []
    else
      TestParameterSet(paramSets[0].0, paramSets[0].1, startUsers, step, oracle[0]).value.runs +
      RampRuns(paramSets[1..], startUsers, step, oracle[1..])
  }

  /** Dropping the first parameter set shifts every set's ramp down by one. */
  lemma RampCompletesShift(paramSets: seq<(int, int)>, startUsers: int, step: int,
                           oracle: seq<seq<Measurement>>, k: nat)
    requires |oracle| == |paramSets| && 0 < k < |paramSets|
    ensures paramSets[1..][k - 1] == paramSets[k] && oracle[1..][k - 1] == oracle[k]
    ensures RampCompletes(paramSets, startUsers, step, oracle, k) <==>
            RampCompletes(paramSets[1..], startUsers, step, oracle[1..], k - 1)
  {
  }

  /** When every ramp completes, the benchmark's results are exactly every
      set's runs, concatenated in the order of the parameter list; and only
      then are all results returned. */
  lemma {:induction false} RunAllIsConcatenation(paramSets: seq<(int, int)>, startUsers: int, step: int,
                                                 oracle: seq<seq<Measurement>>)
    requires |oracle| == |paramSets|
    ensures (forall k :: 0 <= k < |paramSets| ==> RampCompletes(paramSets, startUsers, step, oracle, k)) <==>
            RunAll(paramSets, startUsers, step, oracle).Success? && RunAll(paramSets, startUsers, step, oracle).value.Some?
    ensures RunAll(paramSets, startUsers, step, oracle).Success? && RunAll(paramSets, startUsers, step, oracle).value.Some? ==>
            RunAll(paramSets, startUsers, step, oracle).value.value == RampRuns(paramSets, startUsers, step, oracle)
    decreases |paramSets|
  {
    if |paramSets| > 0 {
      var tail, tailOracle := paramSets[1..], oracle[1..];
      RunAllIsConcatenation(tail, startUsers, step, tailOracle);
      forall k | 0 < k < |paramSets|
        ensures RampCompletes(paramSets, startUsers, step, oracle, k) <==>
                RampCompletes(tail, startUsers, step, tailOracle, k - 1)
      {
        RampCompletesShift(paramSets, startUsers, step, oracle, k);
      }
      if forall k :: 0 <= k < |paramSets| ==> RampCompletes(paramSets, startUsers, step, oracle, k) {
        assert RampCompletes(paramSets, startUsers, step, oracle, 0);
        assert forall k :: 0 <= k < |tail| ==> RampCompletes(tail, startUsers, step, tailOracle, k) by {
          forall k | 0 <= k < |tail|
            ensures RampCompletes(tail, startUsers, step, tailOracle, k)
          {
            assert RampCompletes(paramSets, startUsers, step, oracle, k + 1);
          }
        }
      }
    }
  }

  /** A later set is the first to run out of measurements iff the first set
      completed and it is the first to run out among the rest. */
  lemma FirstExhaustedShift(paramSets: seq<(int, int)>, startUsers: int, step: int,
                            oracle: seq<seq<Measurement>>, k: nat)
    requires |oracle| == |paramSets| && 0 < k < |paramSets|
    ensures FirstExhausted(paramSets, startUsers, step, oracle, k) <==>
            RampCompletes(paramSets, startUsers, step, oracle, 0) &&
            FirstExhausted(paramSets[1..], startUsers, step, oracle[1..], k - 1)
  {
    var tail, tailOracle := paramSets[1..], oracle[1..];
    RampCompletesShift(paramSets, startUsers, step, oracle, k);
    forall j | 0 < j < k
      ensures RampCompletes(paramSets, startUsers, step, oracle, j) <==>
              RampCompletes(tail, startUsers, step, tailOracle, j - 1)
    {
      RampCompletesShift(paramSets, startUsers, step, oracle, j);
    }
    if FirstExhausted(paramSets, startUsers, step, oracle, k) {
      assert RampCompletes(paramSets, startUsers, step, oracle, 0);
      forall j | 0 <= j < k - 1
        ensures RampCompletes(tail, startUsers, step, tailOracle, j)
      {
        assert RampCompletes(paramSets, startUsers, step, oracle, j + 1);
      }
    }
    if RampCompletes(paramSets, startUsers, step, oracle, 0) &&
       FirstExhausted(tail, startUsers, step, tailOracle, k - 1) {
      forall j | 0 <= j < k
        ensures RampCompletes(paramSets, startUsers, step, oracle, j)
      {
        if j > 0 { assert RampCompletes(tail, startUsers, step, tailOracle, j - 1); }
      }
    }
  }

  /** The benchmark stops unfinished exactly when some set's ramp runs out of
      measurements before any set with a zero size is reached. */
  lemma {:induction false} RunAllUnfinished(paramSets: seq<(int, int)>, startUsers: int, step: int,
                                            oracle: seq<seq<Measurement>>)
    requires |oracle| == |paramSets|
    ensures RunAll(paramSets, startUsers, step, oracle) == Success(None) <==>
            exists k: nat :: FirstExhausted(paramSets, startUsers, step, oracle, k)
    decreases |paramSets|
  {
    if |paramSets| > 0 {
      var tail, tailOracle := paramSets[1..], oracle[1..];
      RunAllUnfinished(tail, startUsers, step, tailOracle);
      forall k | 0 < k < |paramSets|
        ensures FirstExhausted(paramSets, startUsers, step, oracle, k) <==>
                RampCompletes(paramSets, startUsers, step, oracle, 0) &&
                FirstExhausted(tail, startUsers, step, tailOracle, k - 1)
      {
        FirstExhaustedShift(paramSets, startUsers, step, oracle, k);
      }
      if exists k: nat :: FirstExhausted(paramSets, startUsers, step, oracle, k) {
        var k: nat :| FirstExhausted(paramSets, startUsers, step, oracle, k);
        if k > 0 {
          assert RampCompletes(paramSets, startUsers, step, oracle, 0);
          assert FirstExhausted(tail, startUsers, step, tailOracle, k - 1);
        }
      } else if RunAll(paramSets, startUsers, step, oracle) == Success(None) {
        if RampCompletes(paramSets, startUsers, step, oracle, 0) {
          var k: nat :| FirstExhausted(tail, startUsers, step, tailOracle, k);
          FirstExhaustedShift(paramSets, startUsers, step, oracle, k + 1);
        } else {
          assert FirstExhausted(paramSets, startUsers, step, oracle, 0);
        }
      }
    }
  }

  /** `main` once the parameter list is parsed: every parameter set is ramped
      (each with its own measurements), then the summary is built from all
      recorded runs; it is empty when nothing was recorded. */
  function Benchmark(paramSets: seq<(int, int)>, startUsers: int, step: int,
                     oracle: seq<seq<Measurement>>): (o: Outcome)
    requires |oracle| == |paramSets|
    ensures (forall k :: 0 <= k < |paramSets| ==> paramSets[k].0 != 0) ==> !o.Crashed?
    ensures o.Crashed? ==> o.error == ZeroDivisionError && exists k :: 0 <= k < |paramSets| && paramSets[k].0 == 0
    ensures o.Completed? ==> |o.summary| <= |paramSets| && (|o.results| == 0 ==> o.summary == [])
    ensures o.Completed? ==>
              forall row :: row in o.summary ==>
                (row in o.results &&
                 forall r :: (r in o.results && r.sizePerDocKb == row.sizePerDocKb &&
                   r.docsPerRequest == row.docsPerRequest) ==> r.rps <= row.rps)
    ensures o.Completed? ==>
              forall k :: 0 <= k < |paramSets| && |RunsOf(o.results, paramSets[k].0, paramSets[k].1)| > 0 ==>
                RunsOf(o.results, paramSets[k].0, paramSets[k].1)[BestRun(RunsOf(o.results, paramSets[k].0, paramSets[k].1))]
                  in o.summary
    ensures o.Completed? <==> forall k :: 0 <= k < |paramSets| ==> RampCompletes(paramSets, startUsers, step, oracle, k)
    ensures o.Completed? ==>
              && (forall k :: 0 <= k < |paramSets| ==> paramSets[k].0 != 0)
              && o.results == RampRuns(paramSets, startUsers, step, oracle)
    ensures o.Unfinished? <==> exists k: nat :: FirstExhausted(paramSets, startUsers, step, oracle, k)
  {
    RunAllIsConcatenation(paramSets, startUsers, step, oracle);
    RunAllUnfinished(paramSets, startUsers, step, oracle);
    match RunAll(paramSets, startUsers, step, oracle)
    case Failure(e) => Crashed(e)
    case Success(None) => Unfinished
    case Success(Some(all)) =>
      SummaryRowsAreBest(paramSets, all);
      SummaryCoversAllSets(paramSets, all);
      Completed(all, if |all| > 0 then Summary(paramSets, all) else [])
  }
}
