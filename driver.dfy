/** The top-level loop over one buffer: declarations with an initialiser,
    function signatures and `while` loops are translated, comments skipped,
    and anything else stops the program with exit status 1. */
module Driver {
  import opened Text
  import opened Tables
  import opened Diagnostics
  import opened Lexer
  import opened LexerProps
  import opened TypeParser
  import opened ExprParser
  import opened Render
  import opened FunctionParser

  /** How the loop over a buffer stops: `Finished` when it `break`s out
      (lex_var failed), `ExitOne` when the program returns 1. */
  datatype Stop = Finished | ExitOne

  datatype RunOut = RunOut(result: Result<Stop>, st: St, reports: seq<Emit>)

  datatype RunTurn = RunDone(out: RunOut) | RunAgain(st: St, reports: seq<Emit>)

  /** The rendered types of `params`, in order; None when one of them cannot
      be rendered. */
  function ParamTypes(params: seq<Var>): (r: Option<seq<string>>)
    ensures r.Some? <==> forall k :: 0 <= k < |params| ==> RecurseVar(params[k], 0).Some?
    ensures r.Some? ==> |r.value| == |params| &&
                        forall k :: 0 <= k < |params| ==> r.value[k] == RecurseVar(params[k], 0).value
  {
    if params == [] then Some([])
    else
      var init := params[..|params| - 1];
      assert forall k :: 0 <= k < |init| ==> init[k] == params[k];
      match ParamTypes(init)
      case None => None
      case Some(ts) =>
        match RecurseVar(params[|params| - 1], 0)
        case None => None
        case Some(t) => Some(ts + [t])
  }

  /** The items of `ts` with ", " between neighbours. */
  function Joined(ts: seq<string>): string {
    if |ts| == 0 then ""
    else if |ts| == 1 then ts[0]
    else Joined(ts[..|ts| - 1]) + ", " + ts[|ts| - 1]
  }

  /** The line printed for a function signature: the return type, the name,
      and the parameter types only, between parentheses. */
  function SignatureText(buf: seq<char>, f: Function): Option<string> {
    match (RecurseVar(f.returnType, 0), ParamTypes(f.params), f.name)
    case (Some(ret), Some(ts), Some(n)) => Some(ret + " " + NameAt(buf, n) + "(" + Joined(ts) + ")\n")
    case _ => None
  }

  /** The line printed for a declaration with an initialiser; it has no
      line break of its own. */
  function AssignText(ty: string, name: string, r: Rendered): seq<Emit> {
    Codes(r.decls) + [Code(ty + " " + name + " = " + r.text)]
  }

  /** The loop from `st` to its end. */
  function RunLoop(buf: seq<char>, st: St): (o: RunOut)
    requires st.pos <= |buf|
    ensures st.pos <= o.st.pos <= |buf|
    decreases |buf| - st.pos
  {
    match RunStep(buf, st)
    case RunDone(o) => o
    case RunAgain(next, written) =>
      var rest := RunLoop(buf, next);
      rest.(reports := written + rest.reports)
  }

  /** One pass of the loop. */
  function RunStep(buf: seq<char>, st: St): (t: RunTurn)
    requires st.pos <= |buf|
    ensures t.RunDone? ==> st.pos <= t.out.st.pos <= |buf|
    ensures t.RunAgain? ==> st.pos < t.st.pos <= |buf|
  {
    var tok := Next(buf, st, false);
    NextMoves(buf, st, false);
    var q := SkipWs(buf, st.pos);
    TokenBounds(buf, q);
    var k := tok.tok.kind;
    if PossiblyVar(k) then
      PossiblyVarConsumes(buf, q);
      VarStep(buf, tok.st, tok.tok)
    else OtherStep(buf, tok.st, k)
  }

  /** A pass that starts with any other token, `st` being the state after
      it: a `while` loop, another keyword (whose branch is empty), a comment,
      or a token that makes the program return 1. */
  function OtherStep(buf: seq<char>, st: St, k: TokenType): (t: RunTurn)
    requires st.pos <= |buf| && !PossiblyVar(k)
    ensures t.RunDone? ==> st.pos <= t.out.st.pos <= |buf|
    ensures t.RunAgain? ==> st.pos <= t.st.pos <= |buf|
  {
    if k == KeywordTok(While) then
      var w := WhileSpec(buf, st);
      if w.result.Err? then RunDone(RunOut(Err(w.result.error), w.st, w.reports)) else RunAgain(w.st, w.reports)
    else if k.KeywordTok? then RunAgain(st, [])
    else if k == SLComment then RunAgain(St(NextLine(buf, st.pos), st.line), [])
    else RunDone(RunOut(Ok(ExitOne), st, []))
  }

  /** A pass that starts with a token possibly_var accepts: the type, then
      the rest of the declaration; a failing lex_var ends the loop. */
  function VarStep(buf: seq<char>, st: St, first: Token): (t: RunTurn)
    requires st.pos <= |buf|
    ensures t.RunDone? ==> st.pos <= t.out.st.pos <= |buf|
    ensures t.RunAgain? ==> st.pos <= t.st.pos <= |buf|
  {
    var v := LexVarSpec(buf, st, first);
    LexVarAdvances(buf, st, first);
    if v.result.Err? then RunDone(RunOut(Ok(Finished), v.st, v.reports))
    else DeclStep(buf, v.st, v.result.value, v.reports)
  }

  /** After a declaration's type: its name, then `(` for a function or `=`
      for an initialiser. */
  function DeclStep(buf: seq<char>, st: St, v: Var, written: seq<Emit>): (t: RunTurn)
    requires st.pos <= |buf|
    ensures t.RunDone? ==> st.pos <= t.out.st.pos <= |buf|
    ensures t.RunAgain? ==> st.pos < t.st.pos <= |buf|
  {
    var name := Next(buf, st, false);
    NextMoves(buf, st, false);
    if name.tok.kind != Name then
      RunDone(RunOut(Ok(ExitOne), name.st, written + ExpectationEmits(buf, name.st.pos, name.st.line, name.tok.size, ["name"])))
    else
      var v' := v.(name := Some(name.tok.start));
      var after := Next(buf, name.st, false);
      NextMoves(buf, name.st, false);
      OneCharToken(buf, SkipWs(buf, name.st.pos));
      if after.tok.kind == StartParen then SignatureStep(buf, after.st, v', written)
      else if after.tok.kind == Assign then AssignStep(buf, after.st, v', written)
      else RunDone(RunOut(Ok(ExitOne), after.st, written + ExpectationEmits(buf, after.st.pos, after.st.line, after.tok.size, ["(", "="])))
  }

  /** A function: lex_function, then its signature line. */
  function SignatureStep(buf: seq<char>, st: St, v: Var, written: seq<Emit>): (t: RunTurn)
    requires 0 < st.pos <= |buf|
    ensures t.RunDone? ==> st.pos <= t.out.st.pos <= |buf|
    ensures t.RunAgain? ==> st.pos <= t.st.pos <= |buf|
  {
    var o := FunctionSpec(buf, st, v);
    if o.result.Err? then RunDone(RunOut(Err(o.result.error), o.st, written + o.reports))
    else
      var s := SignatureText(buf, o.result.value);
      if s.None? then RunDone(RunOut(Err(Undefined), o.st, written + o.reports))
      else RunAgain(o.st, written + o.reports + [Code(s.value)])
  }

  /** A declaration with an initialiser: the type is rendered first, then
      the expression is lexed and rendered. */
  function AssignStep(buf: seq<char>, st: St, v: Var, written: seq<Emit>): (t: RunTurn)
    requires 0 < st.pos <= |buf|
    ensures t.RunDone? ==> st.pos <= t.out.st.pos <= |buf|
    ensures t.RunAgain? ==> st.pos <= t.st.pos <= |buf|
  {
    var ty := RecurseVar(v, 0);
    if ty.None? then RunDone(RunOut(Err(Undefined), st, written))
    else
      var e := ExprFrom(buf, st, true);
      if e.result.Err? then RunDone(RunOut(Err(e.result.error), e.st, written + e.reports))
      else
        var r := RecurseExpr(buf, e.result.value);
        if r.None? || v.name.None? then RunDone(RunOut(Err(Undefined), e.st, written + e.reports))
        else RunAgain(e.st, written + e.reports + AssignText(ty.value, NameAt(buf, v.name.value), r.value))
  }

  /** The signature line, printed piece by piece as the source does: the
      parameter types in a loop, each but the last followed by ", ". */
  method PrintSignature(buf: seq<char>, f: Function) returns (r: Option<string>)
    ensures r == SignatureText(buf, f)
  {
    var ret := RecurseVar(f.returnType, 0);
    if ret.None? || f.name.None? {
      return None;
    }
    var s := PrintParams(f.params);
    if s.None? {
      return None;
    }
    r := Some(ret.value + " " + NameAt(buf, f.name.value) + "(" + s.value + ")\n");
  }

  /** The parameter types in a loop, each but the last followed by ", ". */
  method PrintParams(params: seq<Var>) returns (r: Option<string>)
    ensures r.None? <==> ParamTypes(params).None?
    ensures r.Some? ==> r.value == Joined(ParamTypes(params).value)
  {
    var s := "";
    ghost var ts: seq<string> := [];
    var n := |params|;
    for j := 0 to n
      invariant ParamTypes(params[..j]) == Some(ts) && |ts| == j
      invariant s == Joined(ts) + (if 0 < j < n then ", " else "")
    {
      var t := RecurseVar(params[j], 0);
      if t.None? {
        assert ParamTypes(params).None?;
        return None;
      }
      ParamTypesSnoc(params, j, ts, t.value);
      var sep := if j != n - 1 then ", " else "";
      JoinedStep(ts, t.value, j, n);
      ts := ts + [t.value];
      s := s + t.value + sep;
    }
    assert params[..n] == params;
    return Some(s);
  }

  lemma ParamTypesSnoc(params: seq<Var>, j: nat, ts: seq<string>, t: string)
    requires j < |params| && ParamTypes(params[..j]) == Some(ts) && RecurseVar(params[j], 0) == Some(t)
    ensures ParamTypes(params[..j + 1]) == Some(ts + [t])
  {
    assert params[..j + 1][..j] == params[..j];
  }

  /** The text printed after `j` of `n` parameter types, one more. */
  lemma JoinedStep(ts: seq<string>, t: string, j: nat, n: nat)
    requires |ts| == j < n
    ensures Joined(ts) + (if 0 < j < n then ", " else "") + t + (if j != n - 1 then ", " else "") ==
            Joined(ts + [t]) + (if 0 < j + 1 < n then ", " else "")
  {
    JoinedSnoc(ts, t);
    if j == 0 {
      assert Joined(ts) == "";
    }
  }

  lemma JoinedSnoc(ts: seq<string>, t: string)
    ensures Joined(ts + [t]) == if ts == [] then t else Joined(ts) + ", " + t
  {
    assert (ts + [t])[..|ts|] == ts;
  }

  /** The loop of the source's entry point over one buffer. */
  method Transpile(lb: LexBuffer) returns (r: Result<Stop>)
    requires lb.Valid()
    modifies lb`pos, lb`lineNum, lb`out
    ensures lb.Valid()
    ensures var o := RunLoop(lb.buf, old(lb.State()));
            r == o.result && lb.State() == o.st && lb.out == old(lb.out) + o.reports
  {
    ghost var goal := RunLoop(lb.buf, lb.State());
    ghost var written: seq<Emit> := [];
    RunRemainsStart(lb.buf, lb.State());
    while true
      invariant lb.Valid() && lb.out == old(lb.out) + written
      invariant RunRemains(lb.buf, lb.State(), goal, written)
      decreases |lb.buf| - lb.pos
    {
      var done;
      done, r, written := RunRound(lb, goal, old(lb.out), written);
      if done {
        return;
      }
    }
  }

  /** What the loop still has to do from `st`, after the output already
      `written`, is what remains of `goal`. */
  ghost predicate RunRemains(buf: seq<char>, st: St, goal: RunOut, written: seq<Emit>) {
    st.pos <= |buf| &&
    var rest := RunLoop(buf, st);
    goal.result == rest.result && goal.st == rest.st && goal.reports == written + rest.reports
  }

  lemma RunRemainsStart(buf: seq<char>, st: St)
    requires st.pos <= |buf|
    ensures RunRemains(buf, st, RunLoop(buf, st), [])
  {
  }

  lemma RunRemainsAfterStep(buf: seq<char>, st: St, goal: RunOut, written: seq<Emit>)
    requires RunRemains(buf, st, goal, written)
    ensures var t := RunStep(buf, st);
            (t.RunDone? ==> goal == t.out.(reports := written + t.out.reports)) &&
            (t.RunAgain? ==> RunRemains(buf, t.st, goal, written + t.reports))
  {
    match RunStep(buf, st)
    case RunDone(o) =>
      assert RunLoop(buf, st) == o;
    case RunAgain(next, more) =>
      var rest := RunLoop(buf, next);
      assert RunLoop(buf, st) == rest.(reports := more + rest.reports);
      Regroup(written, more, rest.reports);
  }

  /** A pass of the loop, stated against what remains of it. */
  method RunRound(lb: LexBuffer, ghost goal: RunOut, ghost base: seq<Emit>, ghost written: seq<Emit>)
    returns (done: bool, r: Result<Stop>, ghost written': seq<Emit>)
    requires lb.Valid() && lb.out == base + written
    requires RunRemains(lb.buf, lb.State(), goal, written)
    modifies lb`pos, lb`lineNum, lb`out
    ensures lb.Valid() && lb.out == base + written'
    ensures done ==> r == goal.result && lb.State() == goal.st && written' == goal.reports
    ensures !done ==> old(lb.pos) < lb.pos && RunRemains(lb.buf, lb.State(), goal, written')
  {
    ghost var t := RunStep(lb.buf, lb.State());
    RunRemainsAfterStep(lb.buf, lb.State(), goal, written);
    ghost var out0 := lb.out;
    done, r := RunPass(lb);
    if done {
      written' := written + t.out.reports;
      Appended(lb.out, out0, base, written, t.out.reports);
    } else {
      written' := written + t.reports;
      Appended(lb.out, out0, base, written, t.reports);
    }
  }

  /** One pass of the loop. */
  method RunPass(lb: LexBuffer) returns (done: bool, r: Result<Stop>)
    requires lb.Valid()
    modifies lb`pos, lb`lineNum, lb`out
    ensures lb.Valid()
    ensures var t := RunStep(lb.buf, old(lb.State()));
            done == t.RunDone? &&
            (done ==> r == t.out.result && lb.State() == t.out.st && lb.out == old(lb.out) + t.out.reports) &&
            (!done ==> lb.State() == t.st && lb.out == old(lb.out) + t.reports)
  {
    ghost var st0 := lb.State();
    var tok := lb.LexString(false);
    NextMoves(lb.buf, st0, false);
    TokenBounds(lb.buf, SkipWs(lb.buf, st0.pos));
    if PossiblyVar(tok.kind) {
      PossiblyVarConsumes(lb.buf, SkipWs(lb.buf, st0.pos));
      done, r := VarPass(lb, tok);
    } else {
      done, r := OtherPass(lb, tok.kind);
    }
  }

  /** A pass from a token possibly_var rejects on. */
  method OtherPass(lb: LexBuffer, k: TokenType) returns (done: bool, r: Result<Stop>)
    requires lb.Valid() && !PossiblyVar(k)
    modifies lb`pos, lb`lineNum, lb`out
    ensures lb.Valid()
    ensures var t := OtherStep(lb.buf, old(lb.State()), k);
            done == t.RunDone? &&
            (done ==> r == t.out.result && lb.State() == t.out.st && lb.out == old(lb.out) + t.out.reports) &&
            (!done ==> lb.State() == t.st && lb.out == old(lb.out) + t.reports)
  {
    r := Ok(ExitOne);
    if k == KeywordTok(While) {
      var w := WhilePass(lb);
      if w.Err? {
        return true, Err(w.error);
      }
      done := false;
    } else if k.KeywordTok? {
      done := false;
    } else if k == SLComment {
      lb.pos := NextLine(lb.buf, lb.pos);
      done := false;
    } else {
      done := true;
    }
  }

  /** A pass from a declaration's type on. */
  method VarPass(lb: LexBuffer, first: Token) returns (done: bool, r: Result<Stop>)
    requires lb.Valid()
    modifies lb`pos, lb`lineNum, lb`out
    ensures lb.Valid()
    ensures var t := VarStep(lb.buf, old(lb.State()), first);
            done == t.RunDone? &&
            (done ==> r == t.out.result && lb.State() == t.out.st && lb.out == old(lb.out) + t.out.reports) &&
            (!done ==> lb.State() == t.st && lb.out == old(lb.out) + t.reports)
  {
    ghost var st1 := lb.State();
    var v := LexVar(lb, first);
    LexVarAdvances(lb.buf, st1, first);
    if v.Err? {
      return true, Ok(Finished);
    }
    done, r := DeclPass(lb, v.value, old(lb.out), lb.out[|old(lb.out)|..]);
  }

  /** A pass from a declaration's name on. */
  method DeclPass(lb: LexBuffer, v: Var, ghost base: seq<Emit>, ghost written: seq<Emit>)
    returns (done: bool, r: Result<Stop>)
    requires lb.Valid() && lb.out == base + written
    modifies lb`pos, lb`lineNum, lb`out
    ensures lb.Valid()
    ensures var t := DeclStep(lb.buf, old(lb.State()), v, written);
            done == t.RunDone? &&
            (done ==> r == t.out.result && lb.State() == t.out.st && lb.out == base + t.out.reports) &&
            (!done ==> lb.State() == t.st && lb.out == base + t.reports)
  {
    ghost var st0 := lb.State();
    var name := lb.LexString(false);
    NextMoves(lb.buf, st0, false);
    if name.kind != Name {
      var e := ExpectationError(lb.buf, lb.pos, lb.lineNum, name.size, ["name"]);
      lb.Write(e);
      Appended(lb.out, old(lb.out), base, written, e);
      return true, Ok(ExitOne);
    }
    var v' := v.(name := Some(name.start));
    ghost var st1 := lb.State();
    var after := lb.LexString(false);
    NextMoves(lb.buf, st1, false);
    OneCharToken(lb.buf, SkipWs(lb.buf, st1.pos));
    if after.kind == StartParen {
      done, r := SignaturePass(lb, v', base, written);
    } else if after.kind == Assign {
      done, r := AssignPass(lb, v', base, written);
    } else {
      var e := ExpectationError(lb.buf, lb.pos, lb.lineNum, after.size, ["(", "="]);
      lb.Write(e);
      Appended(lb.out, old(lb.out), base, written, e);
      return true, Ok(ExitOne);
    }
  }

  /** A function signature: lex_function, then the signature line. */
  method SignaturePass(lb: LexBuffer, v: Var, ghost base: seq<Emit>, ghost written: seq<Emit>)
    returns (done: bool, r: Result<Stop>)
    requires lb.Valid() && 0 < lb.pos && lb.out == base + written
    modifies lb`pos, lb`lineNum, lb`out
    ensures lb.Valid()
    ensures var t := SignatureStep(lb.buf, old(lb.State()), v, written);
            done == t.RunDone? &&
            (done ==> r == t.out.result && lb.State() == t.out.st && lb.out == base + t.out.reports) &&
            (!done ==> lb.State() == t.st && lb.out == base + t.reports)
  {
    ghost var st0 := lb.State();
    var f := LexFunction(lb, v);
    ghost var o := FunctionSpec(lb.buf, st0, v);
    Appended(lb.out, old(lb.out), base, written, o.reports);
    if f.Err? {
      return true, Err(f.error);
    }
    var s := PrintSignature(lb.buf, f.value);
    if s.None? {
      return true, Err(Undefined);
    }
    ghost var out1 := lb.out;
    lb.Write([Code(s.value)]);
    Appended(lb.out, out1, base, written + o.reports, [Code(s.value)]);
    return false, Ok(ExitOne);
  }

  /** A declaration with an initialiser. */
  method AssignPass(lb: LexBuffer, v: Var, ghost base: seq<Emit>, ghost written: seq<Emit>)
    returns (done: bool, r: Result<Stop>)
    requires lb.Valid() && 0 < lb.pos && lb.out == base + written
    modifies lb`pos, lb`lineNum, lb`out
    ensures lb.Valid()
    ensures var t := AssignStep(lb.buf, old(lb.State()), v, written);
            done == t.RunDone? &&
            (done ==> r == t.out.result && lb.State() == t.out.st && lb.out == base + t.out.reports) &&
            (!done ==> lb.State() == t.st && lb.out == base + t.reports)
  {
    var ty := RecurseVar(v, 0);
    if ty.None? {
      return true, Err(Undefined);
    }
    ghost var st0 := lb.State();
    var e := LexExpr(lb, true);
    ghost var o := ExprFrom(lb.buf, st0, true);
    Appended(lb.out, old(lb.out), base, written, o.reports);
    if e.Err? {
      return true, Err(e.error);
    }
    var t := RenderExpr(lb.buf, e.value);
    if t.None? || v.name.None? {
      return true, Err(Undefined);
    }
    ghost var out1 := lb.out;
    var text := AssignText(ty.value, NameAt(lb.buf, v.name.value), t.value);
    lb.Write(text);
    Appended(lb.out, out1, base, written + o.reports, text);
    return false, Ok(ExitOne);
  }
}
