/** Properties of lex_function: what the duplicate-name check guarantees
    about the stored parameters, how an early return is reported, and how
    the whole function can fail. */
module FunctionProps {
  import opened Text
  import opened Tables
  import opened Diagnostics
  import opened Lexer
  import opened LexerProps
  import opened TypeParser
  import opened ExprParser
  import opened ExprProps
  import opened Render
  import opened FunctionParser

  /** No stored parameter name agrees with an earlier one, compared as
      exists_param_with_name compares: over the later name's length. */
  predicate DistinctNames(buf: seq<char>, params: seq<Var>)
    requires AllNamed(params)
  {
    forall i, j :: 0 <= i < j < |params| ==>
      !StrnEq(buf, params[i].name.value, params[j].name.value, NameLength(buf, params[j].name.value))
  }

  /** A parameter pass keeps the parameters stored so far and adds at most
      one, whose name was not yet taken. */
  lemma ParamNamedDistinct(buf: seq<char>, st: St, params: seq<Var>, v: Var, written: seq<Emit>)
    requires st.pos <= |buf| && AllNamed(params) && DistinctNames(buf, params)
    ensures var t := ParamNamed(buf, st, params, v, written);
            (t.ParamsDone? ==> params <= t.done.params && DistinctNames(buf, t.done.params)) &&
            (t.ParamAgain? ==> params <= t.params && DistinctNames(buf, t.params))
  {
    var name := Next(buf, st, false);
    if name.tok.kind == Name && !HasParamNamed(buf, params, name.tok.start, NameLength(buf, name.tok.start)) {
      var params' := params + [v.(name := Some(name.tok.start))];
      assert forall i :: 0 <= i < |params| ==> params'[i] == params[i];
      assert params'[|params|].name.value == name.tok.start;
    }
  }

  lemma ParamStepDistinct(buf: seq<char>, st: St, params: seq<Var>)
    requires st.pos <= |buf| && AllNamed(params) && DistinctNames(buf, params)
    ensures var t := ParamStep(buf, st, params);
            (t.ParamsDone? ==> params <= t.done.params && DistinctNames(buf, t.done.params)) &&
            (t.ParamAgain? ==> params <= t.params && DistinctNames(buf, t.params))
  {
    var tok := Next(buf, st, false);
    NextMoves(buf, st, false);
    if PossiblyVar(tok.tok.kind) {
      var v := LexVarSpec(buf, tok.st, tok.tok);
      LexVarAdvances(buf, tok.st, tok.tok);
      if v.result.Ok? {
        ParamNamedDistinct(buf, v.st, params, v.result.value, v.reports);
      }
    }
  }

  /** The parameter loop only ever appends, and never stores a name that
      exists_param_with_name would call repeated. */
  lemma {:induction false} ParamLoopDistinct(buf: seq<char>, st: St, params: seq<Var>)
    requires st.pos <= |buf| && AllNamed(params) && DistinctNames(buf, params)
    ensures var p := ParamLoop(buf, st, params);
            params <= p.params && DistinctNames(buf, p.params)
    decreases |buf| - st.pos
  {
    ParamStepDistinct(buf, st, params);
    match ParamStep(buf, st, params)
    case ParamsDone(_) =>
    case ParamAgain(next, params', _) =>
      ParamLoopDistinct(buf, next, params');
  }

  /** Every signature lex_function returns has pairwise distinct parameter
      names, and carries the return type and name it was entered with. */
  lemma FunctionDistinct(buf: seq<char>, st: St, returnType: Var)
    requires st.pos <= |buf|
    ensures var o := FunctionSpec(buf, st, returnType);
            o.result.Ok? ==>
              var f := o.result.value;
              f.returnType == returnType && f.name == returnType.name &&
              AllNamed(f.params) && DistinctNames(buf, f.params)
  {
    ParamLoopDistinct(buf, st, []);
  }

  /** The last thing written is a report. */
  predicate EndsWithReport(reports: seq<Emit>) {
    |reports| > 0 && reports[|reports| - 1].Error?
  }

  lemma EndsWithReportAfter(written: seq<Emit>, reports: seq<Emit>)
    requires EndsWithReport(reports)
    ensures EndsWithReport(written + reports)
  {
    assert (written + reports)[|written + reports| - 1] == reports[|reports| - 1];
  }

  lemma ParamNamedReturnReported(buf: seq<char>, st: St, params: seq<Var>, v: Var, written: seq<Emit>)
    requires st.pos <= |buf| && AllNamed(params)
    ensures var t := ParamNamed(buf, st, params, v, written);
            t.ParamsDone? && !t.done.toBody && t.done.st.pos > 0 ==> EndsWithReport(t.done.reports)
  {
    var name := Next(buf, st, false);
    NextMoves(buf, st, false);
    if name.tok.kind != Name {
      var e := ExpectationEmits(buf, name.st.pos, name.st.line, name.tok.size, ["name"]);
      if name.st.pos > 0 {
        ExpectationEmitsShape(buf, name.st.pos, name.st.line, name.tok.size, ["name"]);
        EndsWithReportAfter(written, e);
      }
    } else if HasParamNamed(buf, params, name.tok.start, NameLength(buf, name.tok.start)) {
      var e := ErrorEmits(buf, name.st.pos, name.st.line, name.tok.size, "function parameter is repeated", None);
      if name.st.pos > 0 {
        ErrorEmitsShape(buf, name.st.pos, name.st.line, name.tok.size, "function parameter is repeated", None);
        EndsWithReportAfter(written, e);
      }
    }
  }

  lemma ParamStepReturnReported(buf: seq<char>, st: St, params: seq<Var>)
    requires st.pos <= |buf| && AllNamed(params)
    ensures var t := ParamStep(buf, st, params);
            t.ParamsDone? && !t.done.toBody && t.done.st.pos > 0 ==> EndsWithReport(t.done.reports)
  {
    var tok := Next(buf, st, false);
    NextMoves(buf, st, false);
    if PossiblyVar(tok.tok.kind) {
      var v := LexVarSpec(buf, tok.st, tok.tok);
      LexVarAdvances(buf, tok.st, tok.tok);
      if v.result.Ok? {
        ParamNamedReturnReported(buf, v.st, params, v.result.value, v.reports);
      }
    } else {
      ExpectationEmitsShape(buf, tok.st.pos, tok.st.line, tok.tok.size, ["variable type"]);
    }
  }

  /** When the parameter loop makes lex_function return before the body (a
      missing type, a missing name or a repeated name), the last thing it
      wrote is the report of that error; print_error writes nothing only at
      the very start of the buffer. */
  lemma {:induction false} ParamLoopReturnReported(buf: seq<char>, st: St, params: seq<Var>)
    requires st.pos <= |buf| && AllNamed(params)
    ensures var p := ParamLoop(buf, st, params);
            !p.toBody && p.st.pos > 0 ==> EndsWithReport(p.reports)
    decreases |buf| - st.pos
  {
    ParamStepReturnReported(buf, st, params);
    match ParamStep(buf, st, params)
    case ParamsDone(_) =>
    case ParamAgain(next, params', written) =>
      ParamLoopReturnReported(buf, next, params');
      var rest := ParamLoop(buf, next, params');
      if !rest.toBody && rest.st.pos > 0 {
        EndsWithReportAfter(written, rest.reports);
      }
  }

  /** The failures of the body loop: a `while` condition that diverges, one
      that cannot be rendered, or a declaration whose name is not followed by
      the end of the line. */
  predicate ExprFailure(e: ParseError) {
    e == Diverges || e == Undefined
  }

  lemma BodyStepFailures(buf: seq<char>, st: St)
    requires st.pos <= |buf|
    ensures var t := BodyStep(buf, st);
            t.BodyDone? && t.out.result.Err? ==> ExprFailure(t.out.result.error)
  {
    var tok := Next(buf, st, false);
    NextMoves(buf, st, false);
    if tok.tok.kind == KeywordTok(While) {
      WhileFailures(buf, tok.st);
    }
  }

  /** A `while` fails only where its condition would hang the source or
      cannot be rendered. */
  lemma WhileFailures(buf: seq<char>, st: St)
    requires st.pos <= |buf|
    ensures var w := WhileSpec(buf, st);
            w.result.Err? ==> ExprFailure(w.result.error)
  {
    ExprFromShaped(buf, st, true);
  }

  lemma {:induction false} BodyLoopFailures(buf: seq<char>, st: St)
    requires st.pos <= |buf|
    ensures var b := BodyLoop(buf, st);
            b.result.Err? ==> ExprFailure(b.result.error)
    decreases |buf| - st.pos
  {
    BodyStepFailures(buf, st);
    match BodyStep(buf, st)
    case BodyDone(_) =>
    case BodyAgain(next, _) =>
      BodyLoopFailures(buf, next);
  }

  /** lex_function reports syntax errors and goes on; it returns false only
      where the source would hang or read undefined memory. */
  lemma FunctionFailures(buf: seq<char>, st: St, returnType: Var)
    requires st.pos <= |buf|
    ensures var o := FunctionSpec(buf, st, returnType);
            o.result.Err? ==> ExprFailure(o.result.error)
  {
    var p := ParamLoop(buf, st, []);
    if p.toBody {
      var open := Next(buf, p.st, false);
      NextMoves(buf, p.st, false);
      if open.tok.kind == StartCurly {
        BodyLoopFailures(buf, open.st);
      }
    }
  }

  /** buffer_string_ptr stops a name at any digit but '9', so `x1` and `x2`
      both have the one-character name `x`, and the second is reported as
      a repeat of the first. */
  lemma DigitSuffixIsRepeat()
    ensures var buf := "x1, x2";
            NameLength(buf, 4) == 1 &&
            HasParamNamed(buf, [Var([], [false], Some(0), I32)], 4, NameLength(buf, 4))
  {
    var buf := "x1, x2";
    assert NameLength(buf, 5) == 0;
    assert StrnEq(buf, 0, 4, 1) by {
      assert StrnEq(buf, 1, 5, 0);
    }
    var ps := [Var([], [false], Some(0), I32)];
    assert StrnEq(buf, ps[0].name.value, 4, NameLength(buf, 4));
  }

  /** strncmp over only the new name's length makes a name that is a prefix
      of an earlier one a repeat, but not the other way round. */
  lemma PrefixIsRepeat()
    ensures var buf := "ab, a";
            HasParamNamed(buf, [Var([], [false], Some(0), I32)], 4, NameLength(buf, 4))
    ensures var buf := "a, ab";
            !HasParamNamed(buf, [Var([], [false], Some(0), I32)], 3, NameLength(buf, 3))
  {
    var buf := "ab, a";
    assert NameLength(buf, 5) == 0;
    assert NameLength(buf, 4) == 1;
    assert StrnEq(buf, 0, 4, 1) by {
      assert StrnEq(buf, 1, 5, 0);
    }
    var ps := [Var([], [false], Some(0), I32)];
    assert StrnEq(buf, ps[0].name.value, 4, NameLength(buf, 4));
    var buf' := "a, ab";
    assert NameLength(buf', 5) == 0;
    assert NameLength(buf', 4) == 1;
    assert NameLength(buf', 3) == 2;
    assert !StrnEq(buf', 1, 4, 1);
    assert StrnEq(buf', 0, 3, 2) == StrnEq(buf', 1, 4, 1);
  }

  /** A `)` where a parameter should start closes an empty list and goes on
      to the body; after a `,` it is reported as a missing "variable type"
      and lex_function returns, so `(i32 x,)` is rejected. */
  lemma CloseWhereParameterStarts(buf: seq<char>, st: St, params: seq<Var>)
    requires st.pos <= |buf| && AllNamed(params)
    requires Next(buf, st, false).tok.kind == EndParen
    ensures var tok := Next(buf, st, false);
            ParamStep(buf, st, params) ==
              if params == [] then ParamsDone(Params([], tok.st, [], true))
              else ParamsDone(Params(params, tok.st,
                     ExpectationEmits(buf, tok.st.pos, tok.st.line, tok.tok.size, ["variable type"]), false))
  {
    NextMoves(buf, st, false);
  }

  /** The parameter loop only ever continues after a `,` that follows a
      named parameter, so every pass that goes round again stores exactly
      one parameter more. */
  lemma ParamStepAppendsOne(buf: seq<char>, st: St, params: seq<Var>)
    requires st.pos <= |buf| && AllNamed(params)
    ensures var t := ParamStep(buf, st, params);
            t.ParamAgain? ==> |t.params| == |params| + 1 && t.params[..|params|] == params
  {
    var tok := Next(buf, st, false);
    NextMoves(buf, st, false);
    if PossiblyVar(tok.tok.kind) {
      var v := LexVarSpec(buf, tok.st, tok.tok);
      LexVarAdvances(buf, tok.st, tok.tok);
    }
  }
}
