/** lex_function: the parameter list of a function signature, with its
    duplicate-name check, and the body, where only `while` conditions are
    translated. */
module FunctionParser {
  import opened Text
  import opened Tables
  import opened Diagnostics
  import opened Lexer
  import opened LexerProps
  import opened TypeParser
  import opened ExprParser
  import opened Render

  /** A parsed signature: the return type, the name (taken from the return
      type's Var) and the parameters in order, each carrying its name. */
  datatype Function = Function(returnType: Var, name: Option<nat>, params: seq<Var>)

  /** Every parameter was stored with a name. */
  predicate AllNamed(params: seq<Var>) {
    forall i :: 0 <= i < |params| ==> params[i].name.Some?
  }

  /** exists_param_with_name: some stored parameter name agrees with the
      buffer at `lookup` over `size` characters, as strncmp compares. */
  predicate HasParamNamed(buf: seq<char>, params: seq<Var>, lookup: nat, size: nat)
    requires AllNamed(params)
  {
    exists i :: 0 <= i < |params| && StrnEq(buf, params[i].name.value, lookup, size)
  }

  /** The parameters built so far, the state, the reports written and whether
      parsing goes on to the body (a `break`) or returns (a `return`). */
  datatype Params = Params(params: seq<Var>, st: St, reports: seq<Emit>, toBody: bool)

  /** One pass of the parameter loop: it ends, or goes round again after a
      `,` with one parameter more. */
  datatype ParamTurn = ParamsDone(done: Params) | ParamAgain(st: St, params: seq<Var>, reports: seq<Emit>)

  /** The parameter loop from `st`, with `params` already stored. */
  function ParamLoop(buf: seq<char>, st: St, params: seq<Var>): (p: Params)
    requires st.pos <= |buf| && AllNamed(params)
    ensures st.pos <= p.st.pos <= |buf| && AllNamed(p.params)
    decreases |buf| - st.pos
  {
    match ParamStep(buf, st, params)
    case ParamsDone(p) => p
    case ParamAgain(next, params', written) =>
      var rest := ParamLoop(buf, next, params');
      rest.(reports := written + rest.reports)
  }

  /** One pass: a type token starts a parameter (lex_var, then a name that is
      not yet taken, then `)` or `,`); otherwise only a `)` opening an empty
      list is accepted. */
  function ParamStep(buf: seq<char>, st: St, params: seq<Var>): (t: ParamTurn)
    requires st.pos <= |buf| && AllNamed(params)
    ensures t.ParamsDone? ==> st.pos <= t.done.st.pos <= |buf| && AllNamed(t.done.params)
    ensures t.ParamAgain? ==> st.pos < t.st.pos <= |buf| && AllNamed(t.params)
  {
    var tok := Next(buf, st, false);
    NextMoves(buf, st, false);
    if PossiblyVar(tok.tok.kind) then
      PossiblyVarConsumes(buf, SkipWs(buf, st.pos));
      ParamTyped(buf, tok.st, params, tok.tok)
    else if |params| == 0 && tok.tok.kind == EndParen then ParamsDone(Params(params, tok.st, [], true))
    else ParamsDone(Params(params, tok.st, ExpectationEmits(buf, tok.st.pos, tok.st.line, tok.tok.size, ["variable type"]), false))
  }

  /** A parameter starting with the type token `first`: lex_var, then its
      name; a failing lex_var leaves the loop for the body. */
  function ParamTyped(buf: seq<char>, st: St, params: seq<Var>, first: Token): (t: ParamTurn)
    requires st.pos <= |buf| && AllNamed(params)
    ensures t.ParamsDone? ==> st.pos <= t.done.st.pos <= |buf| && AllNamed(t.done.params)
    ensures t.ParamAgain? ==> st.pos <= t.st.pos <= |buf| && AllNamed(t.params)
  {
    var v := LexVarSpec(buf, st, first);
    LexVarAdvances(buf, st, first);
    if v.result.Err? then ParamsDone(Params(params, v.st, v.reports, true))
    else ParamNamed(buf, v.st, params, v.result.value, v.reports)
  }

  /** The rest of a pass after a parameter's type: its name, then the `)` or
      `,` after it. */
  function ParamNamed(buf: seq<char>, st: St, params: seq<Var>, v: Var, written: seq<Emit>): (t: ParamTurn)
    requires st.pos <= |buf| && AllNamed(params)
    ensures t.ParamsDone? ==> st.pos <= t.done.st.pos <= |buf| && AllNamed(t.done.params)
    ensures t.ParamAgain? ==> st.pos < t.st.pos <= |buf| && AllNamed(t.params)
  {
    var name := Next(buf, st, false);
    NextMoves(buf, st, false);
    if name.tok.kind != Name then
      ParamsDone(Params(params, name.st, written + ExpectationEmits(buf, name.st.pos, name.st.line, name.tok.size, ["name"]), false))
    else if HasParamNamed(buf, params, name.tok.start, NameLength(buf, name.tok.start)) then
      ParamsDone(Params(params, name.st, written + ErrorEmits(buf, name.st.pos, name.st.line, name.tok.size, "function parameter is repeated", None), false))
    else
      var params' := params + [v.(name := Some(name.tok.start))];
      var sep := Next(buf, name.st, false);
      NextMoves(buf, name.st, false);
      OneCharToken(buf, SkipWs(buf, name.st.pos));
      if sep.tok.kind == EndParen then ParamsDone(Params(params', sep.st, written, true))
      else if sep.tok.kind != Comma then
        ParamsDone(Params(params', sep.st, written + ExpectationEmits(buf, sep.st.pos, sep.st.line, sep.tok.size, [")", ","]), true))
      else ParamAgain(sep.st, params', written)
  }

  /** How the body loop ends: at its `}` or the end of input (`Ok`), or
      with a failure; the state and the reports and text written. */
  datatype BodyOut = BodyOut(result: Result<()>, st: St, reports: seq<Emit>)

  datatype BodyTurn = BodyDone(out: BodyOut) | BodyAgain(st: St, reports: seq<Emit>)

  function BodyLoop(buf: seq<char>, st: St): (b: BodyOut)
    requires st.pos <= |buf|
    ensures st.pos <= b.st.pos <= |buf|
    decreases |buf| - st.pos
  {
    match BodyStep(buf, st)
    case BodyDone(b) => b
    case BodyAgain(next, written) =>
      var rest := BodyLoop(buf, next);
      rest.(reports := written + rest.reports)
  }

  /** A `while` after its keyword: the condition is lexed as an outermost
      expression and rendered; the result fails where either fails, and
      otherwise the loop's text follows the expression's reports. */
  function WhileSpec(buf: seq<char>, st: St): (w: BodyOut)
    requires st.pos <= |buf|
    ensures st.pos <= w.st.pos <= |buf|
  {
    var e := ExprFrom(buf, st, true);
    if e.result.Err? then BodyOut(Err(e.result.error), e.st, e.reports)
    else
      var r := RecurseExpr(buf, e.result.value);
      if r.None? then BodyOut(Err(Undefined), e.st, e.reports)
      else BodyOut(Ok(()), e.st, e.reports + WhileText(r.value))
  }

  /** The generated text of a `while`: the declarations printed while its
      condition is rendered, then the loop itself. */
  function WhileText(r: Rendered): seq<Emit> {
    Codes(r.decls) + [Code("while (" + r.text + ") {}\n")]
  }

  function Codes(lines: seq<string>): (e: seq<Emit>)
    ensures |e| == |lines| && forall k :: 0 <= k < |lines| ==> e[k] == Code(lines[k])
  {
    seq(|lines|, k requires 0 <= k < |lines| => Code(lines[k]))
  }

  /** One pass of the body loop. A declaration with a name is followed by
      is_newline_next, which returns at a NUL or a '\n' under the cursor and
      otherwise never returns; a `while` translates its condition; `}` and
      the end of input end the body; every other token is passed over. */
  function BodyStep(buf: seq<char>, st: St): (t: BodyTurn)
    requires st.pos <= |buf|
    ensures t.BodyDone? ==> st.pos <= t.out.st.pos <= |buf|
    ensures t.BodyAgain? ==> st.pos < t.st.pos <= |buf|
  {
    var tok := Next(buf, st, false);
    NextMoves(buf, st, false);
    var q := SkipWs(buf, st.pos);
    TokenBounds(buf, q);
    var k := tok.tok.kind;
    if PossiblyVar(k) then
      PossiblyVarConsumes(buf, q);
      BodyVarStep(buf, tok.st, tok.tok)
    else BodyOtherStep(buf, st, tok)
  }

  /** A body pass from any other token `tok`, lexed from `st0`. */
  function BodyOtherStep(buf: seq<char>, st0: St, tok: Lexed): (t: BodyTurn)
    requires st0.pos <= tok.st.pos <= |buf| && !PossiblyVar(tok.tok.kind)
    requires tok.tok.kind == KeywordTok(While) ==> st0.pos < tok.st.pos
    ensures t.BodyDone? ==> st0.pos <= t.out.st.pos <= |buf|
    ensures t.BodyAgain? ==> st0.pos < t.st.pos <= |buf|
  {
    var k := tok.tok.kind;
    if k == KeywordTok(While) then
      var w := WhileSpec(buf, tok.st);
      if w.result.Err? then BodyDone(w) else BodyAgain(w.st, w.reports)
    else if k == EndCurly then BodyDone(BodyOut(Ok(()), tok.st, []))
    else if k == Eof then BodyDone(BodyOut(Ok(()), tok.st, ExpectationEmits(buf, tok.st.pos, tok.st.line, tok.tok.size, ["}"])))
    else if tok.st.pos == st0.pos then BodyDone(BodyOut(Err(Diverges), tok.st, []))
    else BodyAgain(tok.st, [])
  }

  /** The declaration branch of the body loop, `st` being the state after
      its first token. */
  function BodyVarStep(buf: seq<char>, st: St, first: Token): (t: BodyTurn)
    requires st.pos <= |buf|
    ensures t.BodyDone? ==> st.pos <= t.out.st.pos <= |buf|
    ensures t.BodyAgain? ==> st.pos <= t.st.pos <= |buf|
  {
    var v := LexVarSpec(buf, st, first);
    LexVarAdvances(buf, st, first);
    if v.result.Err? then BodyDone(BodyOut(Ok(()), v.st, v.reports))
    else
      var name := Next(buf, v.st, false);
      NextMoves(buf, v.st, false);
      if name.tok.kind == Name && At(buf, name.st.pos) != NUL && At(buf, name.st.pos) != '\n' then
        BodyDone(BodyOut(Err(Diverges), name.st, v.reports))
      else BodyAgain(name.st, v.reports)
  }

  /** What lex_function returns, the state it leaves and what it writes. */
  datatype FunctionOut = FunctionOut(result: Result<Function>, st: St, reports: seq<Emit>)

  /** The whole of lex_function, entered after the `(` of a signature whose
      return type and name are `returnType`. */
  function FunctionSpec(buf: seq<char>, st: St, returnType: Var): (o: FunctionOut)
    requires st.pos <= |buf|
    ensures st.pos <= o.st.pos <= |buf|
  {
    var p := ParamLoop(buf, st, []);
    var f := Function(returnType, returnType.name, p.params);
    if !p.toBody then FunctionOut(Ok(f), p.st, p.reports)
    else
      var o := FunctionBody(buf, p.st, f);
      o.(reports := p.reports + o.reports)
  }

  /** After the parameter list: a `{` and the body, or a report. */
  function FunctionBody(buf: seq<char>, st: St, f: Function): (o: FunctionOut)
    requires st.pos <= |buf|
    ensures st.pos <= o.st.pos <= |buf|
  {
    var open := Next(buf, st, false);
    NextMoves(buf, st, false);
    if open.tok.kind != StartCurly then
      FunctionOut(Ok(f), open.st, ExpectationEmits(buf, open.st.pos, open.st.line, open.tok.size, ["{"]))
    else
      var b := BodyLoop(buf, open.st);
      FunctionOut(if b.result.Ok? then Ok(f) else Err(b.result.error), b.st, b.reports)
  }

  /** Function::exists_param_with_name, with its loop over the stored
      parameters. */
  method ExistsParamWithName(buf: seq<char>, params: seq<Var>, lookup: nat, size: nat) returns (found: bool)
    requires AllNamed(params)
    ensures found <==> HasParamNamed(buf, params, lookup, size)
  {
    for i := 0 to |params|
      invariant forall j :: 0 <= j < i ==> !StrnEq(buf, params[j].name.value, lookup, size)
    {
      if StrnEq(buf, params[i].name.value, lookup, size) {
        return true;
      }
    }
    return false;
  }

  /** lex_function over the cursor of `lb`, entered after the `(`. */
  method LexFunction(lb: LexBuffer, returnType: Var) returns (r: Result<Function>)
    requires lb.Valid()
    modifies lb`pos, lb`lineNum, lb`out
    ensures lb.Valid()
    ensures var o := FunctionSpec(lb.buf, old(lb.State()), returnType);
            r == o.result && lb.State() == o.st && lb.out == old(lb.out) + o.reports
  {
    ghost var st0 := lb.State();
    var params, toBody := LexParams(lb);
    ghost var p := ParamLoop(lb.buf, st0, []);
    ghost var out1 := lb.out;
    var f := Function(returnType, returnType.name, params);
    if !toBody {
      return Ok(f);
    }
    r := LexFunctionBody(lb, f);
    ghost var o := FunctionBody(lb.buf, p.st, f);
    Appended(lb.out, out1, old(lb.out), p.reports, o.reports);
  }

  /** The part of lex_function after the parameter list. */
  method LexFunctionBody(lb: LexBuffer, f: Function) returns (r: Result<Function>)
    requires lb.Valid()
    modifies lb`pos, lb`lineNum, lb`out
    ensures lb.Valid()
    ensures var o := FunctionBody(lb.buf, old(lb.State()), f);
            r == o.result && lb.State() == o.st && lb.out == old(lb.out) + o.reports
  {
    ghost var st0 := lb.State();
    var tok := lb.LexString(false);
    NextMoves(lb.buf, st0, false);
    if tok.kind != StartCurly {
      var e := ExpectationError(lb.buf, lb.pos, lb.lineNum, tok.size, ["{"]);
      lb.Write(e);
      return Ok(f);
    }
    var body := LexBody(lb);
    r := if body.Ok? then Ok(f) else Err(body.error);
  }

  /** The parameter loop of lex_function. */
  method LexParams(lb: LexBuffer) returns (params: seq<Var>, toBody: bool)
    requires lb.Valid()
    modifies lb`pos, lb`lineNum, lb`out
    ensures lb.Valid()
    ensures var p := ParamLoop(lb.buf, old(lb.State()), []);
            params == p.params && toBody == p.toBody && lb.State() == p.st && lb.out == old(lb.out) + p.reports
  {
    params := [];
    ghost var goal := ParamLoop(lb.buf, lb.State(), params);
    ghost var written: seq<Emit> := [];
    while true
      invariant lb.Valid() && lb.out == old(lb.out) + written && AllNamed(params)
      invariant ParamsRemain(lb.buf, lb.State(), params, goal, written)
      decreases |lb.buf| - lb.pos
    {
      var done;
      done, toBody, params, written := ParamRound(lb, params, goal, old(lb.out), written);
      if done {
        return;
      }
    }
  }

  /** What the parameter loop still has to do from `st` with `params` stored,
      after the reports already `written`, is what remains of `goal`. */
  ghost predicate ParamsRemain(buf: seq<char>, st: St, params: seq<Var>, goal: Params, written: seq<Emit>) {
    st.pos <= |buf| && AllNamed(params) &&
    var rest := ParamLoop(buf, st, params);
    goal.params == rest.params && goal.toBody == rest.toBody && goal.st == rest.st &&
    goal.reports == written + rest.reports
  }

  lemma ParamsRemainAfterStep(buf: seq<char>, st: St, params: seq<Var>, goal: Params, written: seq<Emit>)
    requires ParamsRemain(buf, st, params, goal, written)
    ensures var t := ParamStep(buf, st, params);
            (t.ParamsDone? ==> goal.params == t.done.params && goal.toBody == t.done.toBody &&
                               goal.st == t.done.st && goal.reports == written + t.done.reports) &&
            (t.ParamAgain? ==> ParamsRemain(buf, t.st, t.params, goal, written + t.reports))
  {
    match ParamStep(buf, st, params)
    case ParamsDone(p) =>
      assert ParamLoop(buf, st, params) == p;
    case ParamAgain(next, params', more) =>
      var rest := ParamLoop(buf, next, params');
      assert ParamLoop(buf, st, params) == rest.(reports := more + rest.reports);
      Regroup(written, more, rest.reports);
  }

  /** Output written after `base + written` is written after `base`. */
  lemma Appended<T>(out: seq<T>, out0: seq<T>, base: seq<T>, written: seq<T>, more: seq<T>)
    requires out0 == base + written && out == out0 + more
    ensures out == base + (written + more)
  {
  }

  /** A pass of the parameter loop, stated against what remains of it. */
  method ParamRound(lb: LexBuffer, params: seq<Var>, ghost goal: Params, ghost base: seq<Emit>,
                    ghost written: seq<Emit>)
    returns (done: bool, toBody: bool, params': seq<Var>, ghost written': seq<Emit>)
    requires lb.Valid() && lb.out == base + written
    requires ParamsRemain(lb.buf, lb.State(), params, goal, written)
    modifies lb`pos, lb`lineNum, lb`out
    ensures lb.Valid() && lb.out == base + written' && AllNamed(params')
    ensures done ==> params' == goal.params && toBody == goal.toBody && lb.State() == goal.st && written' == goal.reports
    ensures !done ==> old(lb.pos) < lb.pos && ParamsRemain(lb.buf, lb.State(), params', goal, written')
  {
    ghost var t := ParamStep(lb.buf, lb.State(), params);
    ParamsRemainAfterStep(lb.buf, lb.State(), params, goal, written);
    ghost var out0 := lb.out;
    done, toBody, params' := ParamPass(lb, params);
    if done {
      written' := written + t.done.reports;
      Appended(lb.out, out0, base, written, t.done.reports);
    } else {
      written' := written + t.reports;
      Appended(lb.out, out0, base, written, t.reports);
    }
  }

  /** One pass of the parameter loop. */
  method ParamPass(lb: LexBuffer, params: seq<Var>) returns (done: bool, toBody: bool, params': seq<Var>)
    requires lb.Valid() && AllNamed(params)
    modifies lb`pos, lb`lineNum, lb`out
    ensures lb.Valid()
    ensures var t := ParamStep(lb.buf, old(lb.State()), params);
            done == t.ParamsDone? &&
            (done ==> params' == t.done.params && toBody == t.done.toBody && lb.State() == t.done.st &&
                      lb.out == old(lb.out) + t.done.reports) &&
            (!done ==> params' == t.params && lb.State() == t.st && lb.out == old(lb.out) + t.reports)
  {
    ghost var st0 := lb.State();
    var tok := lb.LexString(false);
    NextMoves(lb.buf, st0, false);
    if PossiblyVar(tok.kind) {
      PossiblyVarConsumes(lb.buf, SkipWs(lb.buf, st0.pos));
      done, toBody, params' := ParamTypedPass(lb, params, tok);
    } else if |params| == 0 && tok.kind == EndParen {
      return true, true, params;
    } else {
      var e := ExpectationError(lb.buf, lb.pos, lb.lineNum, tok.size, ["variable type"]);
      lb.Write(e);
      return true, false, params;
    }
  }

  /** A parameter pass from its type token on. */
  method ParamTypedPass(lb: LexBuffer, params: seq<Var>, first: Token) returns (done: bool, toBody: bool, params': seq<Var>)
    requires lb.Valid() && AllNamed(params)
    modifies lb`pos, lb`lineNum, lb`out
    ensures lb.Valid()
    ensures var t := ParamTyped(lb.buf, old(lb.State()), params, first);
            done == t.ParamsDone? &&
            (done ==> params' == t.done.params && toBody == t.done.toBody && lb.State() == t.done.st &&
                      lb.out == old(lb.out) + t.done.reports) &&
            (!done ==> params' == t.params && lb.State() == t.st && lb.out == old(lb.out) + t.reports)
  {
    ghost var st0 := lb.State();
    var v := LexVar(lb, first);
    LexVarAdvances(lb.buf, st0, first);
    if v.Err? {
      return true, true, params;
    }
    done, toBody, params' := ParamNamedPass(lb, params, v.value, old(lb.out), lb.out[|old(lb.out)|..]);
  }

  /** The rest of a parameter pass after its type. */
  method ParamNamedPass(lb: LexBuffer, params: seq<Var>, v: Var, ghost base: seq<Emit>, ghost written: seq<Emit>)
    returns (done: bool, toBody: bool, params': seq<Var>)
    requires lb.Valid() && AllNamed(params) && lb.out == base + written
    modifies lb`pos, lb`lineNum, lb`out
    ensures lb.Valid()
    ensures var t := ParamNamed(lb.buf, old(lb.State()), params, v, written);
            done == t.ParamsDone? &&
            (done ==> params' == t.done.params && toBody == t.done.toBody && lb.State() == t.done.st &&
                      lb.out == base + t.done.reports) &&
            (!done ==> params' == t.params && lb.State() == t.st && lb.out == base + t.reports)
  {
    ghost var st0 := lb.State();
    var name := lb.LexString(false);
    NextMoves(lb.buf, st0, false);
    if name.kind != Name {
      var e := ExpectationError(lb.buf, lb.pos, lb.lineNum, name.size, ["name"]);
      lb.Write(e);
      Appended(lb.out, old(lb.out), base, written, e);
      return true, false, params;
    }
    var repeated := ExistsParamWithName(lb.buf, params, name.start, NameLength(lb.buf, name.start));
    if repeated {
      var e := ReportError(lb.buf, lb.pos, lb.lineNum, name.size, "function parameter is repeated", None);
      lb.Write(e);
      Appended(lb.out, old(lb.out), base, written, e);
      return true, false, params;
    }
    params' := params + [v.(name := Some(name.start))];
    ghost var st1 := lb.State();
    var sep := lb.LexString(false);
    NextMoves(lb.buf, st1, false);
    OneCharToken(lb.buf, SkipWs(lb.buf, st1.pos));
    if sep.kind == EndParen {
      done, toBody := true, true;
    } else if sep.kind != Comma {
      var e := ExpectationError(lb.buf, lb.pos, lb.lineNum, sep.size, [")", ","]);
      lb.Write(e);
      Appended(lb.out, old(lb.out), base, written, e);
      done, toBody := true, true;
    } else {
      done, toBody := false, true;
    }
  }

  /** The body loop of lex_function, entered after the `{`. */
  method LexBody(lb: LexBuffer) returns (r: Result<()>)
    requires lb.Valid()
    modifies lb`pos, lb`lineNum, lb`out
    ensures lb.Valid()
    ensures var b := BodyLoop(lb.buf, old(lb.State()));
            r == b.result && lb.State() == b.st && lb.out == old(lb.out) + b.reports
  {
    ghost var goal := BodyLoop(lb.buf, lb.State());
    ghost var written: seq<Emit> := [];
    BodyRemainsStart(lb.buf, lb.State());
    while true
      invariant lb.Valid() && lb.out == old(lb.out) + written
      invariant BodyRemains(lb.buf, lb.State(), goal, written)
      decreases |lb.buf| - lb.pos
    {
      var done;
      done, r, written := BodyRound(lb, goal, old(lb.out), written);
      if done {
        return;
      }
    }
  }

  /** What the body loop still has to do from `st`, after the reports
      already `written`, is what remains of `goal`. */
  ghost predicate BodyRemains(buf: seq<char>, st: St, goal: BodyOut, written: seq<Emit>) {
    st.pos <= |buf| &&
    var rest := BodyLoop(buf, st);
    goal.result == rest.result && goal.st == rest.st && goal.reports == written + rest.reports
  }

  lemma BodyRemainsStart(buf: seq<char>, st: St)
    requires st.pos <= |buf|
    ensures BodyRemains(buf, st, BodyLoop(buf, st), [])
  {
  }

  lemma BodyRemainsAfterStep(buf: seq<char>, st: St, goal: BodyOut, written: seq<Emit>)
    requires BodyRemains(buf, st, goal, written)
    ensures var t := BodyStep(buf, st);
            (t.BodyDone? ==> goal == t.out.(reports := written + t.out.reports)) &&
            (t.BodyAgain? ==> BodyRemains(buf, t.st, goal, written + t.reports))
  {
    match BodyStep(buf, st)
    case BodyDone(b) =>
      assert BodyLoop(buf, st) == b;
    case BodyAgain(next, more) =>
      var rest := BodyLoop(buf, next);
      assert BodyLoop(buf, st) == rest.(reports := more + rest.reports);
      Regroup(written, more, rest.reports);
  }

  /** A pass of the body loop, stated against what remains of it. */
  method BodyRound(lb: LexBuffer, ghost goal: BodyOut, ghost base: seq<Emit>, ghost written: seq<Emit>)
    returns (done: bool, r: Result<()>, ghost written': seq<Emit>)
    requires lb.Valid() && lb.out == base + written
    requires BodyRemains(lb.buf, lb.State(), goal, written)
    modifies lb`pos, lb`lineNum, lb`out
    ensures lb.Valid() && lb.out == base + written'
    ensures done ==> r == goal.result && lb.State() == goal.st && written' == goal.reports
    ensures !done ==> old(lb.pos) < lb.pos && BodyRemains(lb.buf, lb.State(), goal, written')
  {
    ghost var t := BodyStep(lb.buf, lb.State());
    BodyRemainsAfterStep(lb.buf, lb.State(), goal, written);
    ghost var out0 := lb.out;
    done, r := BodyPass(lb);
    if done {
      written' := written + t.out.reports;
      Appended(lb.out, out0, base, written, t.out.reports);
    } else {
      written' := written + t.reports;
      Appended(lb.out, out0, base, written, t.reports);
    }
  }

  /** One pass of the body loop. */
  method BodyPass(lb: LexBuffer) returns (done: bool, r: Result<()>)
    requires lb.Valid()
    modifies lb`pos, lb`lineNum, lb`out
    ensures lb.Valid()
    ensures var t := BodyStep(lb.buf, old(lb.State()));
            done == t.BodyDone? &&
            (done ==> r == t.out.result && lb.State() == t.out.st && lb.out == old(lb.out) + t.out.reports) &&
            (!done ==> lb.State() == t.st && lb.out == old(lb.out) + t.reports)
  {
    ghost var st0 := lb.State();
    var p0 := lb.pos;
    var tok := lb.LexString(false);
    NextMoves(lb.buf, st0, false);
    TokenBounds(lb.buf, SkipWs(lb.buf, st0.pos));
    if PossiblyVar(tok.kind) {
      PossiblyVarConsumes(lb.buf, SkipWs(lb.buf, st0.pos));
      done, r := BodyVarPass(lb, tok);
    } else {
      done, r := BodyOtherPass(lb, st0, p0, tok);
    }
  }

  /** A body pass from a token possibly_var rejects, already lexed from
      `st0`. */
  method BodyOtherPass(lb: LexBuffer, ghost st0: St, p0: nat, tok: Token) returns (done: bool, r: Result<()>)
    requires lb.Valid() && p0 == st0.pos <= lb.pos && !PossiblyVar(tok.kind)
    requires tok.kind == KeywordTok(While) ==> st0.pos < lb.pos
    modifies lb`pos, lb`lineNum, lb`out
    ensures lb.Valid()
    ensures var t := BodyOtherStep(lb.buf, st0, Lexed(tok, old(lb.State())));
            done == t.BodyDone? &&
            (done ==> r == t.out.result && lb.State() == t.out.st && lb.out == old(lb.out) + t.out.reports) &&
            (!done ==> lb.State() == t.st && lb.out == old(lb.out) + t.reports)
  {
    if tok.kind == KeywordTok(While) {
      r := WhilePass(lb);
      done := r.Err?;
    } else if tok.kind == EndCurly {
      return true, Ok(());
    } else if tok.kind == Eof {
      var e := ExpectationError(lb.buf, lb.pos, lb.lineNum, tok.size, ["}"]);
      lb.Write(e);
      return true, Ok(());
    } else if lb.pos == p0 {
      return true, Err(Diverges);
    } else {
      return false, Ok(());
    }
  }

  /** The declaration branch of a body pass. */
  method BodyVarPass(lb: LexBuffer, first: Token) returns (done: bool, r: Result<()>)
    requires lb.Valid()
    modifies lb`pos, lb`lineNum, lb`out
    ensures lb.Valid()
    ensures var t := BodyVarStep(lb.buf, old(lb.State()), first);
            done == t.BodyDone? &&
            (done ==> r == t.out.result && lb.State() == t.out.st && lb.out == old(lb.out) + t.out.reports) &&
            (!done ==> lb.State() == t.st && lb.out == old(lb.out) + t.reports)
  {
    ghost var st1 := lb.State();
    var v := LexVar(lb, first);
    LexVarAdvances(lb.buf, st1, first);
    if v.Err? {
      return true, Ok(());
    }
    ghost var st2 := lb.State();
    var name := lb.LexString(false);
    NextMoves(lb.buf, st2, false);
    if name.kind == Name && At(lb.buf, lb.pos) != NUL && At(lb.buf, lb.pos) != '\n' {
      return true, Err(Diverges);
    }
    return false, Ok(());
  }

  /** A `while` in the body: its condition is lexed as an outermost
      expression, rendered, and printed after the declarations it needs. */
  method WhilePass(lb: LexBuffer) returns (r: Result<()>)
    requires lb.Valid()
    modifies lb`pos, lb`lineNum, lb`out
    ensures lb.Valid()
    ensures var w := WhileSpec(lb.buf, old(lb.State()));
            r == w.result && lb.State() == w.st && lb.out == old(lb.out) + w.reports
  {
    var e := LexExpr(lb, true);
    if e.Err? {
      return Err(e.error);
    }
    var t := RenderExpr(lb.buf, e.value);
    if t.None? {
      return Err(Undefined);
    }
    lb.Write(WhileText(t.value));
    r := Ok(());
  }
}
