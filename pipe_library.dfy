/** The library object: its settings, the splitter loop and the `pipe` keyword. */
module PipeLibrary {
  import opened Calls
  import opened Splitter
  import opened Executor
  import opened Dispatcher

  const DefaultPipeStrategy: string := "prepend"
  const DefaultPlaceholder: string := "$"
  const DefaultPipeOperator: string := ">>"

  /** The settings of a library constructed without arguments. */
  const DefaultConfig: Config<string> := Config(DefaultPipeStrategy, DefaultPlaceholder, DefaultPipeOperator)

  /** One diagnostic emitted when a keyword fails: the keyword and the failure. */
  datatype ErrorReport<V> = ErrorReport(keyword: V, cause: string)

  /** A run that has already dispatched `done` before continuing as `e`. */
  function After<V>(done: seq<Call<V>>, e: Execution<V>): Execution<V> {
    Execution(e.result, done + e.invoked)
  }

  /**
   * One step of a run from call i, after `done`: dispatch call i, then either
   * stop with its failure or carry on from call i+1 with its return value.
   */
  lemma RunStep<V>(calls: seq<Call<V>>, i: nat, done: seq<Call<V>>, piped: Option<V>, history: seq<Call<V>>,
                   respond: Responder<V>, cfg: Config<V>)
    requires i < |calls|
    ensures var c := Call(calls[i].name, EffectiveArgs(calls[i].args, piped, cfg));
      var e := After(done, Run(calls[i..], piped, history, respond, cfg));
      match respond(history, c)
      case Raised(cause) => e == Execution(Err(cause), done + [c])
      case Returned(v) => e == After(done + [c], Run(calls[i + 1..], v, history + [c], respond, cfg))
  {
  }

  class PipeLibrary<V(==)> {
    const builtIn: BuiltIn<V>
    const pipeStrategy: string
    const placeholder: V
    const pipeOperator: V
    /** The error sink: one entry per failed keyword. */
    var errorLog: seq<ErrorReport<V>>

    constructor (builtIn: BuiltIn<V>, pipeStrategy: string, placeholder: V, pipeOperator: V)
      ensures this.builtIn == builtIn && this.pipeStrategy == pipeStrategy
      ensures this.placeholder == placeholder && this.pipeOperator == pipeOperator
      ensures errorLog == []
    {
      this.builtIn := builtIn;
      this.pipeStrategy := pipeStrategy;
      this.placeholder := placeholder;
      this.pipeOperator := pipeOperator;
      errorLog := [];
    }

    function Settings(): Config<V> {
      Config(pipeStrategy, placeholder, pipeOperator)
    }

    /** Cuts the tokens into calls at every pipe operator, absorbing empty groups. */
    method SplitPipeKeywords(keywords: seq<V>) returns (splitKeywords: seq<Call<V>>)
      ensures splitKeywords == Split(keywords, pipeOperator)
    {
      splitKeywords := [];
      var currentKeyword: seq<V> := [];
      for i := 0 to |keywords|
        invariant ScanState(splitKeywords, currentKeyword) == Scan(keywords[..i], pipeOperator)
      {
        var item := keywords[i];
        assert keywords[..i + 1][..i] == keywords[..i];
        if item == pipeOperator {
          if currentKeyword != [] {
            splitKeywords := splitKeywords + [Call(currentKeyword[0], currentKeyword[1..])];
            currentKeyword := [];
          }
        } else {
          currentKeyword := currentKeyword + [item];
        }
      }
      if currentKeyword != [] {
        splitKeywords := splitKeywords + [Call(currentKeyword[0], currentKeyword[1..])];
      }
      assert keywords[..|keywords|] == keywords;
      ScanSplits(keywords, pipeOperator);
    }

    /**
     * The arguments a call is dispatched with: while a result is piped, it
     * replaces every placeholder, or else is appended or inserted first.
     */
    method ThreadArgs(args: seq<V>, piped: Option<V>) returns (effective: seq<V>)
      ensures effective == EffectiveArgs(args, piped, Settings())
    {
      effective := args;
      if piped.Some? {
        if placeholder in effective {
          effective := Substitute(effective, placeholder, piped.value);
        } else if pipeStrategy == AppendStrategy {
          effective := effective + [piped.value];
        } else {
          effective := [piped.value] + effective;
        }
      }
    }

    /**
     * The `pipe` keyword: splits the tokens, then runs the calls in order,
     * threading each result into the next call's arguments; the first failure
     * is logged and ends the run.
     */
    method Pipe(keywords: seq<V>) returns (pipedResult: Result<V>)
      modifies this, builtIn
      ensures var e := Pipeline(keywords, old(builtIn.trace), builtIn.respond, Settings());
        pipedResult == e.result &&
        builtIn.trace == old(builtIn.trace) + e.invoked &&
        (e.result.Ok? ==> errorLog == old(errorLog)) &&
        (e.result.Err? ==>
           |e.invoked| > 0 &&
           errorLog == old(errorLog) + [ErrorReport(e.invoked[|e.invoked| - 1].name, e.result.cause)])
    {
      var keywordCalls := SplitPipeKeywords(keywords);
      pipedResult := RunKeywordCalls(keywordCalls);
    }

    /** The executor loop of `pipe`, over calls already split. */
    method RunKeywordCalls(keywordCalls: seq<Call<V>>) returns (pipedResult: Result<V>)
      modifies this, builtIn
      ensures var e := Run(keywordCalls, None, old(builtIn.trace), builtIn.respond, Settings());
        pipedResult == e.result &&
        builtIn.trace == old(builtIn.trace) + e.invoked &&
        (e.result.Ok? ==> errorLog == old(errorLog)) &&
        (e.result.Err? ==>
           |e.invoked| > 0 &&
           errorLog == old(errorLog) + [ErrorReport(e.invoked[|e.invoked| - 1].name, e.result.cause)])
    {
      ghost var h0 := builtIn.trace;
      ghost var full := Run(keywordCalls, None, h0, builtIn.respond, Settings());
      assert full == After([], Run(keywordCalls[0..], None, h0, builtIn.respond, Settings())) by {
        assert keywordCalls[0..] == keywordCalls;
      }
      ghost var done: seq<Call<V>> := [];
      var piped: Option<V> := None;
      for i := 0 to |keywordCalls|
        invariant builtIn.trace == h0 + done
        invariant errorLog == old(errorLog)
        invariant full == After(done, Run(keywordCalls[i..], piped, builtIn.trace, builtIn.respond, Settings()))
      {
        var kw := keywordCalls[i].name;
        var args := ThreadArgs(keywordCalls[i].args, piped);
        RunStep(keywordCalls, i, done, piped, builtIn.trace, builtIn.respond, Settings());
        var reply := builtIn.RunKeyword(kw, args);
        match reply
        case Raised(cause) =>
          errorLog := errorLog + [ErrorReport(kw, cause)];
          return Err(cause);
        case Returned(value) =>
          piped := value;
          done := done + [Call(kw, args)];
      }
      assert keywordCalls[|keywordCalls|..] == [];
      pipedResult := Ok(piped);
    }
  }
}
