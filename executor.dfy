/**
 * The pipe executor as a specification: how the piped result enters each
 * call's arguments, and the run of a whole pipeline against a dispatcher.
 */
module Executor {
  import opened Calls
  import opened Splitter

  /** The library's three settings, fixed when it is constructed. */
  datatype Config<V> = Config(pipeStrategy: string, placeholder: V, pipeOperator: V)

  /** What a pipe run gives its caller: the last piped result, or the first failure. */
  datatype Result<V> = Ok(value: Option<V>) | Err(cause: string)

  /** A run's result together with the calls it dispatched, in order. */
  datatype Execution<V> = Execution(result: Result<V>, invoked: seq<Call<V>>)

  const AppendStrategy: string := "append"

  /** Every occurrence of the placeholder replaced by v; all other arguments kept. */
  function Substitute<V(==)>(args: seq<V>, placeholder: V, v: V): (r: seq<V>)
    ensures |r| == |args|
    ensures forall i :: 0 <= i < |args| ==> r[i] == (if args[i] == placeholder then v else args[i])
    ensures placeholder in args ==> v in r
    ensures v != placeholder ==> placeholder !in r
  {
    if args == [] then []
    else [if args[0] == placeholder then v else args[0]] + Substitute(args[1..], placeholder, v)
  }

  /** The arguments a call is dispatched with, given the current piped result. */
  function EffectiveArgs<V(==)>(args: seq<V>, piped: Option<V>, cfg: Config<V>): seq<V>
  {
    match piped
    case None => args
    case Some(v) =>
      if cfg.placeholder in args then Substitute(args, cfg.placeholder, v)
      else if cfg.pipeStrategy == AppendStrategy then args + [v]
      else [v] + args
  }

  /**
   * How the piped result enters a call: not at all while it is absent (a
   * placeholder is then an ordinary argument); at every placeholder position,
   * length unchanged, when a placeholder is present; otherwise as one extra
   * argument, last for the append strategy and first for any other.
   */
  lemma EffectiveArgsRule<V>(args: seq<V>, piped: Option<V>, cfg: Config<V>)
    ensures var r := EffectiveArgs(args, piped, cfg);
      (piped.None? ==> r == args) &&
      (piped.Some? ==> piped.value in r) &&
      (piped.Some? && cfg.placeholder in args ==>
         |r| == |args| &&
         (forall i :: 0 <= i < |args| && args[i] == cfg.placeholder ==> r[i] == piped.value) &&
         (forall i :: 0 <= i < |args| && args[i] != cfg.placeholder ==> r[i] == args[i])) &&
      (piped.Some? && cfg.placeholder !in args ==> |r| == |args| + 1) &&
      (piped.Some? && cfg.placeholder !in args && cfg.pipeStrategy == AppendStrategy ==>
         r[..|args|] == args && r[|args|] == piped.value) &&
      (piped.Some? && cfg.placeholder !in args && cfg.pipeStrategy != AppendStrategy ==>
         r[0] == piped.value && r[1..] == args)
  {
  }

  /**
   * Runs the calls in order from the piped result `piped`, `history` being what
   * the dispatcher has seen before. The first failure ends the run.
   */
  function Run<V(==)>(calls: seq<Call<V>>, piped: Option<V>, history: seq<Call<V>>,
                      respond: Responder<V>, cfg: Config<V>): Execution<V>
    decreases |calls|
  {
    if calls == [] then Execution(Ok(piped), [])
    else
      var c := Call(calls[0].name, EffectiveArgs(calls[0].args, piped, cfg));
      match respond(history, c)
      case Raised(cause) => Execution(Err(cause), [c])
      case Returned(v) =>
        var rest := Run(calls[1..], v, history + [c], respond, cfg);
        Execution(rest.result, [c] + rest.invoked)
  }

  /** The whole `pipe` keyword: split the tokens, then run the calls from an absent result. */
  function Pipeline<V(==)>(keywords: seq<V>, history: seq<Call<V>>, respond: Responder<V>,
                           cfg: Config<V>): Execution<V>
  {
    Run(Split(keywords, cfg.pipeOperator), None, history, respond, cfg)
  }

  /** The reply the dispatcher gave to the k-th call of a run. */
  function ReplyTo<V>(respond: Responder<V>, history: seq<Call<V>>, invoked: seq<Call<V>>, k: nat): Reply<V>
    requires k < |invoked|
  {
    respond(history + invoked[..k], invoked[k])
  }

  /**
   * A run dispatches at most one call per pipeline call: all of them when it
   * succeeds, at least one when it fails.
   */
  lemma {:induction false} RunDispatchCount<V>(calls: seq<Call<V>>, piped: Option<V>, history: seq<Call<V>>,
                                               respond: Responder<V>, cfg: Config<V>)
    ensures var e := Run(calls, piped, history, respond, cfg);
      |e.invoked| <= |calls| &&
      (e.result.Ok? ==> |e.invoked| == |calls|) &&
      (e.result.Err? ==> |e.invoked| >= 1)
    decreases |calls|
  {
    if calls != [] {
      var c := Call(calls[0].name, EffectiveArgs(calls[0].args, piped, cfg));
      match respond(history, c)
      case Raised(_) =>
      case Returned(v) =>
        RunDispatchCount(calls[1..], v, history + [c], respond, cfg);
    }
  }

  /** The k-th dispatched call has the name of the k-th call of the pipeline. */
  lemma {:induction false} RunInvokesInOrder<V>(calls: seq<Call<V>>, piped: Option<V>, history: seq<Call<V>>,
                                                respond: Responder<V>, cfg: Config<V>)
    ensures var e := Run(calls, piped, history, respond, cfg);
      |e.invoked| <= |calls| &&
      forall k :: 0 <= k < |e.invoked| ==> e.invoked[k].name == calls[k].name
    decreases |calls|
  {
    RunDispatchCount(calls, piped, history, respond, cfg);
    if calls != [] {
      var c := Call(calls[0].name, EffectiveArgs(calls[0].args, piped, cfg));
      match respond(history, c)
      case Raised(_) =>
      case Returned(v) =>
        var rest := Run(calls[1..], v, history + [c], respond, cfg);
        RunInvokesInOrder(calls[1..], v, history + [c], respond, cfg);
        var e := Run(calls, piped, history, respond, cfg);
        assert e.invoked == [c] + rest.invoked;
        forall k | 0 < k < |e.invoked|
          ensures e.invoked[k].name == calls[k].name
        {
          assert e.invoked[k] == rest.invoked[k - 1];
          assert calls[k] == calls[1..][k - 1];
        }
    }
  }

  /**
   * The reply to call k is what is threaded into the arguments of call k+1;
   * the first call gets the starting piped result.
   */
  lemma {:induction false} RunThreadsResults<V>(calls: seq<Call<V>>, piped: Option<V>, history: seq<Call<V>>,
                                                respond: Responder<V>, cfg: Config<V>)
    ensures var e := Run(calls, piped, history, respond, cfg);
      |e.invoked| <= |calls| &&
      (|e.invoked| > 0 ==> e.invoked[0].args == EffectiveArgs(calls[0].args, piped, cfg)) &&
      (forall k :: 0 <= k < |e.invoked| - 1 ==>
         ReplyTo(respond, history, e.invoked, k).Returned? &&
         e.invoked[k + 1].args == EffectiveArgs(calls[k + 1].args, ReplyTo(respond, history, e.invoked, k).value, cfg))
    decreases |calls|
  {
    RunDispatchCount(calls, piped, history, respond, cfg);
    if calls != [] {
      var c := Call(calls[0].name, EffectiveArgs(calls[0].args, piped, cfg));
      match respond(history, c)
      case Raised(_) =>
      case Returned(v) =>
        var h' := history + [c];
        var rest := Run(calls[1..], v, h', respond, cfg);
        RunDispatchCount(calls[1..], v, h', respond, cfg);
        RunThreadsResults(calls[1..], v, h', respond, cfg);
        var e := Run(calls, piped, history, respond, cfg);
        assert e.invoked == [c] + rest.invoked;
        forall k | 0 <= k < |e.invoked| - 1
          ensures ReplyTo(respond, history, e.invoked, k).Returned? &&
            e.invoked[k + 1].args == EffectiveArgs(calls[k + 1].args, ReplyTo(respond, history, e.invoked, k).value, cfg)
        {
          ThreadStep(calls, c, rest.invoked, history, respond, k);
          if k == 0 {
            assert rest.invoked[0].args == EffectiveArgs(calls[1..][0].args, v, cfg);
          } else {
            assert ReplyTo(respond, h', rest.invoked, k - 1).Returned?;
            assert rest.invoked[k].args ==
              EffectiveArgs(calls[1..][k].args, ReplyTo(respond, h', rest.invoked, k - 1).value, cfg);
          }
        }
    }
  }

  /** Shifting a run by its first call shifts the replies by one. */
  lemma ThreadStep<V>(calls: seq<Call<V>>, c: Call<V>, rest: seq<Call<V>>, history: seq<Call<V>>,
                      respond: Responder<V>, k: nat)
    requires k < |rest| && k + 1 < |calls|
    ensures ([c] + rest)[k + 1] == rest[k] && calls[k + 1] == calls[1..][k]
    ensures k == 0 ==> ReplyTo(respond, history, [c] + rest, 0) == respond(history, c)
    ensures k > 0 ==> ReplyTo(respond, history, [c] + rest, k) == ReplyTo(respond, history + [c], rest, k - 1)
  {
    var inv := [c] + rest;
    assert inv[..0] == [];
    assert history + [] == history;
    if k > 0 {
      assert inv[..k] == [c] + rest[..k - 1];
      assert history + inv[..k] == history + [c] + rest[..k - 1];
    }
  }

  /**
   * A successful run returns the last reply (the starting piped result when there
   * are no calls); a failed run reports the last dispatched call's failure.
   */
  lemma {:induction false} RunOutcome<V>(calls: seq<Call<V>>, piped: Option<V>, history: seq<Call<V>>,
                                         respond: Responder<V>, cfg: Config<V>)
    ensures var e := Run(calls, piped, history, respond, cfg);
      (e.result.Ok? ==> |e.invoked| == |calls|) &&
      (e.result.Ok? && calls == [] ==> e.result.value == piped && e.invoked == []) &&
      (e.result.Ok? && calls != [] ==>
         ReplyTo(respond, history, e.invoked, |e.invoked| - 1) == Returned(e.result.value)) &&
      (e.result.Err? ==>
         |e.invoked| >= 1 && ReplyTo(respond, history, e.invoked, |e.invoked| - 1) == Raised(e.result.cause))
    decreases |calls|
  {
    RunDispatchCount(calls, piped, history, respond, cfg);
    if calls != [] {
      var c := Call(calls[0].name, EffectiveArgs(calls[0].args, piped, cfg));
      assert history + [c][..0] == history;
      match respond(history, c)
      case Raised(_) =>
      case Returned(v) =>
        var h' := history + [c];
        var rest := Run(calls[1..], v, h', respond, cfg);
        RunDispatchCount(calls[1..], v, h', respond, cfg);
        RunOutcome(calls[1..], v, h', respond, cfg);
        var inv := [c] + rest.invoked;
        var n := |inv|;
        if n > 1 {
          assert inv[n - 1] == rest.invoked[n - 2];
          assert inv[..n - 1] == [c] + rest.invoked[..n - 2];
          assert history + inv[..n - 1] == h' + rest.invoked[..n - 2];
        }
    }
  }

  /**
   * Fail-fast: a run succeeds exactly when every call of the pipeline was
   * dispatched and returned; a failing call is the last one dispatched, and its
   * failure is the run's result.
   */
  lemma RunStopsAtFirstFailure<V>(calls: seq<Call<V>>, piped: Option<V>, history: seq<Call<V>>,
                                  respond: Responder<V>, cfg: Config<V>)
    ensures var e := Run(calls, piped, history, respond, cfg);
      (e.result.Ok? <==>
         |e.invoked| == |calls| &&
         forall k :: 0 <= k < |e.invoked| ==> ReplyTo(respond, history, e.invoked, k).Returned?) &&
      (forall k :: 0 <= k < |e.invoked| && ReplyTo(respond, history, e.invoked, k).Raised? ==>
         k == |e.invoked| - 1 && e.result == Err(ReplyTo(respond, history, e.invoked, k).cause))
  {
    var e := Run(calls, piped, history, respond, cfg);
    var n := |e.invoked|;
    RunDispatchCount(calls, piped, history, respond, cfg);
    RunThreadsResults(calls, piped, history, respond, cfg);
    RunOutcome(calls, piped, history, respond, cfg);
    if e.result.Ok? {
      assert n == |calls|;
      if n > 0 {
        assert ReplyTo(respond, history, e.invoked, n - 1).Returned?;
      }
    } else {
      assert ReplyTo(respond, history, e.invoked, n - 1) == Raised(e.result.cause);
    }
  }

  /** A two-call run whose first call returns dispatches both calls, the second with that result threaded in. */
  lemma RunOfTwoCalls<V>(first: Call<V>, second: Call<V>, piped: Option<V>, history: seq<Call<V>>,
                         respond: Responder<V>, cfg: Config<V>)
    requires respond(history, Call(first.name, EffectiveArgs(first.args, piped, cfg))).Returned?
    ensures var c := Call(first.name, EffectiveArgs(first.args, piped, cfg));
      Run([first, second], piped, history, respond, cfg).invoked ==
        [c, Call(second.name, EffectiveArgs(second.args, respond(history, c).value, cfg))]
  {
    var c := Call(first.name, EffectiveArgs(first.args, piped, cfg));
    var v := respond(history, c).value;
    assert [first, second][1..] == [second];
    assert [second][1..] == [];
    var d := Call(second.name, EffectiveArgs(second.args, v, cfg));
    assert Run([second], v, history + [c], respond, cfg).invoked == [d];
  }

  /** A pipeline of separators only, the empty one included, dispatches nothing and returns None. */
  lemma PipelineOfSeparatorsOnly<V>(keywords: seq<V>, history: seq<Call<V>>, respond: Responder<V>, cfg: Config<V>)
    requires forall i :: 0 <= i < |keywords| ==> keywords[i] == cfg.pipeOperator
    ensures Pipeline(keywords, history, respond, cfg) == Execution(Ok(None), [])
  {
    SplitOnlySeparators(keywords, cfg.pipeOperator);
  }
}
