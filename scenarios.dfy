/** Worked pipelines over string tokens with the default settings. */
module Scenarios {
  import opened Calls
  import opened Splitter
  import opened Executor
  import opened PipeLibrary

  /** A doubled separator collapses: two calls, not three. */
  lemma DoubleSeparatorCollapses()
    ensures Split(["A", ">>", ">>", "B"], ">>") == [Call("A", []), Call("B", [])]
  {
    var ts: seq<string> := ["A", ">>", ">>", "B"];
    assert RunLength(ts, ">>") == 1;
    assert ts[1..] == [">>", ">>", "B"];
    assert ts[1..][1..] == [">>", "B"];
    assert ts[1..][1..][1..] == ["B"];
    SplitOnlySeparators([">>", ">>"], ">>");
    SplitClosesGroup(["A"], [">>", "B"], ">>");
    assert ts == ["A"] + [">>"] + [">>", "B"];
    SplitSkipsSeparator(["B"], ">>");
    SplitWithoutSeparator(["B"], ">>");
  }

  /** With the default prepend strategy the first result becomes the next call's first argument. */
  lemma ResultIsPrepended(respond: Responder<string>)
    requires respond([], Call("GetUserId", ["alice"])) == Returned(Some("42"))
    ensures Pipeline(["GetUserId", "alice", ">>", "FetchUser"], [], respond, DefaultConfig).invoked
      == [Call("GetUserId", ["alice"]), Call("FetchUser", ["42"])]
  {
    SplitClosesGroup(["GetUserId", "alice"], ["FetchUser"], ">>");
    assert ["GetUserId", "alice", ">>", "FetchUser"] == ["GetUserId", "alice"] + [">>"] + ["FetchUser"];
    SplitWithoutSeparator(["FetchUser"], ">>");
    var calls := [Call("GetUserId", ["alice"]), Call("FetchUser", [])];
    assert Split(["GetUserId", "alice", ">>", "FetchUser"], ">>") == calls;
    assert EffectiveArgs(calls[1].args, Some("42"), DefaultConfig) == ["42"];
    RunOfTwoCalls(calls[0], calls[1], None, [], respond, DefaultConfig);
  }

  /** A placeholder marks where the result goes; nothing is added besides. */
  lemma PlaceholderIsReplaced<V>(cfg: Config<V>, respond: Responder<V>, a: V, x: V, b: V, y: V, result: V)
    requires a != cfg.pipeOperator && x != cfg.pipeOperator && b != cfg.pipeOperator && y != cfg.pipeOperator
    requires cfg.placeholder != cfg.pipeOperator && y != cfg.placeholder
    requires respond([], Call(a, [x])) == Returned(Some(result))
    ensures Pipeline([a, x, cfg.pipeOperator, b, cfg.placeholder, y], [], respond, cfg).invoked
      == [Call(a, [x]), Call(b, [result, y])]
  {
    var sep, p := cfg.pipeOperator, cfg.placeholder;
    var calls := [Call(a, [x]), Call(b, [p, y])];
    SplitClosesGroup([a, x], [b, p, y], sep);
    assert [a, x, sep, b, p, y] == [a, x] + [sep] + [b, p, y];
    SplitWithoutSeparator([b, p, y], sep);
    assert Split([a, x, sep, b, p, y], sep) == calls;
    var args := [p, y];
    assert args[0] == p;
    var r := Substitute(args, p, result);
    assert r[0] == result && r[1] == y;
    assert r == [result, y];
    assert EffectiveArgs(calls[1].args, Some(result), cfg) == [result, y];
    RunOfTwoCalls(calls[0], calls[1], None, [], respond, cfg);
  }

  /** With the append strategy the result becomes the last argument. */
  lemma ResultIsAppended(respond: Responder<string>)
    requires respond([], Call("A", [])) == Returned(Some("7"))
    ensures var cfg := Config("append", DefaultPlaceholder, DefaultPipeOperator);
      Pipeline(["A", ">>", "B", "y"], [], respond, cfg).invoked == [Call("A", []), Call("B", ["y", "7"])]
  {
    var cfg := Config("append", DefaultPlaceholder, DefaultPipeOperator);
    SplitClosesGroup(["A"], ["B", "y"], ">>");
    assert ["A", ">>", "B", "y"] == ["A"] + [">>"] + ["B", "y"];
    SplitWithoutSeparator(["B", "y"], ">>");
    var calls := [Call("A", []), Call("B", ["y"])];
    assert Split(["A", ">>", "B", "y"], ">>") == calls;
    assert EffectiveArgs(calls[1].args, Some("7"), cfg) == ["y", "7"];
    RunOfTwoCalls(calls[0], calls[1], None, [], respond, cfg);
  }

  /** A keyword that returns None passes nothing on: the next placeholder stays a literal argument. */
  lemma NoneIsNotPiped(respond: Responder<string>)
    requires respond([], Call("A", [])) == Returned(None)
    ensures Pipeline(["A", ">>", "B", "$"], [], respond, DefaultConfig).invoked == [Call("A", []), Call("B", ["$"])]
  {
    SplitClosesGroup(["A"], ["B", "$"], ">>");
    assert ["A", ">>", "B", "$"] == ["A"] + [">>"] + ["B", "$"];
    SplitWithoutSeparator(["B", "$"], ">>");
    assert Split(["A", ">>", "B", "$"], ">>") == [Call("A", []), Call("B", ["$"])];
    RunOfTwoCalls(Call("A", []), Call("B", ["$"]), None, [], respond, DefaultConfig);
  }

  /** A failing first keyword ends the run: the second is never dispatched and the failure is the result. */
  lemma FailureStopsPipeline(respond: Responder<string>, cause: string)
    requires respond([], Call("A", [])) == Raised(cause)
    ensures Pipeline(["A", ">>", "B"], [], respond, DefaultConfig) == Execution(Err(cause), [Call("A", [])])
  {
    SplitClosesGroup(["A"], ["B"], ">>");
    assert ["A", ">>", "B"] == ["A"] + [">>"] + ["B"];
    SplitWithoutSeparator(["B"], ">>");
    assert Split(["A", ">>", "B"], ">>") == [Call("A", []), Call("B", [])];
  }
}
