/** lex_var: the type/modifier parser. It collects a run of base-type, `mut`,
    `<`, `[` and `let` tokens into a Var (parallel modifier and mutability
    stacks plus a base type) and then counts the `]` and `>` closers. */
module TypeParser {
  import opened Text
  import opened Tables
  import opened Diagnostics
  import opened Lexer
  import opened LexerProps

  datatype Modifier = Ptr | Array

  /** Var: `modifier` and `is_mutable` as sequences, `name` as the offset of
      the name token once bound, and the base type. */
  datatype Var = Var(modifier: seq<Modifier>, isMutable: seq<bool>, name: Option<nat>, varType: VarType)

  /** `Var variable = {.var_type = VarType::Any}`. */
  const EmptyVar := Var([], [], None, Any)

  /** possibly_var: the tokens that can start (and continue) a type. */
  predicate PossiblyVar(k: TokenType) {
    k == Mut || k.VarTypeTok? || k == StartRect || k == Let || k == LessThen
  }

  predicate IsCloser(k: TokenType) {
    k == EndRect || k == BiggerThen
  }

  /** The stack shape lex_var keeps: at most one flag more than modifiers. */
  predicate StackShape(v: Var) {
    |v.isMutable| == |v.modifier| || |v.isMutable| == |v.modifier| + 1
  }

  function CountOf(m: Modifier, mods: seq<Modifier>): nat
    decreases |mods|
  {
    if mods == [] then 0 else (if mods[0] == m then 1 else 0) + CountOf(m, mods[1..])
  }

  /** A token that possibly_var accepts always has a non-zero size, so taking
      it moves the cursor. */
  lemma PossiblyVarConsumes(buf: seq<char>, p: nat)
    requires p <= |buf| && PossiblyVar(Classify(buf, p).kind)
    ensures Classify(buf, p).size >= 1
  {
    TokenBounds(buf, p);
  }

  /** One pass of the collecting loop's body over token `k`: the updated Var,
      and whether the loop breaks after it. */
  datatype Applied = Applied(v: Var, stop: bool)

  function Apply(v: Var, k: TokenType, firstTime: bool): Applied {
    if k == Mut then
      if |v.isMutable| == |v.modifier| then Applied(v.(isMutable := v.isMutable + [true]), false)
      else Applied(v, true)
    else
      var v1 := if |v.isMutable| == |v.modifier| then v.(isMutable := v.isMutable + [false]) else v;
      if k == LessThen then Applied(v1.(modifier := v1.modifier + [Ptr]), false)
      else if k == StartRect then Applied(v1.(modifier := v1.modifier + [Array]), false)
      else if k.VarTypeTok? then Applied(v1.(varType := k.varType), false)
      else if k == Let then Applied(v1, !firstTime)
      else Applied(v1, false)
  }

  /** The outcome of the collecting loop: the Var, the token it ended on
      (`lex_token`), the state, the tokens it consumed after the first, and
      the "unexpected let" report when a late `let` ended it. */
  datatype Collected = Collected(v: Var, last: Token, st: St, taken: seq<Token>, reports: seq<Emit>, stopped: bool)

  /** The collecting loop after its first pass, from state `st`. */
  function Collect(buf: seq<char>, st: St, v: Var): (c: Collected)
    requires st.pos <= |buf|
    decreases |buf| - st.pos
    ensures st.pos <= c.st.pos <= |buf|
  {
    var peek := Next(buf, st, true);
    CollectStep(buf, st);
    if !PossiblyVar(peek.tok.kind) then Collected(v, peek.tok, peek.st, [], [], false)
    else
      var took := Next(buf, peek.st, false);
      var a := Apply(v, peek.tok.kind, false);
      if a.stop then
        Collected(a.v, peek.tok, took.st, [peek.tok],
                  if peek.tok.kind == Let
                  then ErrorEmits(buf, took.st.pos, took.st.line, peek.tok.size, "unexpected \"let\"", None)
                  else [], true)
      else
        var rest := Collect(buf, took.st, a.v);
        rest.(taken := [peek.tok] + rest.taken)
  }

  /** One pass of the collecting loop after the first: the lookahead and the
      consuming call return the same token, and a token possibly_var accepts
      moves the cursor. */
  lemma CollectStep(buf: seq<char>, st: St)
    requires st.pos <= |buf|
    ensures var peek := Next(buf, st, true);
            var took := Next(buf, peek.st, false);
            st.pos <= peek.st.pos <= |buf| && took.st.pos <= |buf| && took.tok == peek.tok &&
            (PossiblyVar(peek.tok.kind) ==> peek.st.pos < took.st.pos)
  {
    NextMoves(buf, st, true);
    NextMoves(buf, st, false);
    LookaheadThenConsume(buf, st);
    if PossiblyVar(Classify(buf, SkipWs(buf, st.pos)).kind) {
      PossiblyVarConsumes(buf, SkipWs(buf, st.pos));
    }
  }

  /** The first pass, over the already consumed `first_token`, which never
      breaks. */
  function Start(first: Token): Var {
    Apply(EmptyVar, first.kind, true).v
  }

  /** The outcome of the closing loop: the closers counted, the token it
      stopped at (`lex_token2`) and the state. */
  datatype Closed = Closed(arrays: nat, ptrs: nat, last: Token, st: St)

  /** The closing loop from state `st` with current token `t2`; a closer `t2`
      is always the token a lookahead at `st` returns. */
  function Close(buf: seq<char>, st: St, t2: Token, ca: nat, cp: nat): (c: Closed)
    requires st.pos <= |buf|
    requires IsCloser(t2.kind) ==> SkipWs(buf, st.pos) == st.pos && t2 == Classify(buf, st.pos)
    decreases |buf| - st.pos
    ensures st.pos <= c.st.pos <= |buf| && ca <= c.arrays && cp <= c.ptrs
  {
    if IsCloser(t2.kind) then
      var took := Next(buf, st, false);
      NextMoves(buf, st, false);
      var peek := Next(buf, took.st, true);
      NextMoves(buf, took.st, true);
      SkipWsIdempotent(buf, took.st.pos);
      Close(buf, peek.st, peek.tok, ca + (if t2.kind == EndRect then 1 else 0),
            cp + (if t2.kind == BiggerThen then 1 else 0))
    else Closed(ca, cp, t2, st)
  }

  /** What lex_var returns, the state it leaves and the reports it writes. */
  datatype VarOutcome = VarOutcome(result: Result<Var>, st: St, reports: seq<Emit>)

  function LexVarSpec(buf: seq<char>, st: St, first: Token): VarOutcome
    requires st.pos <= |buf|
  {
    var c := Collect(buf, st, Start(first));
    CollectEndsOnLookahead(buf, st, Start(first));
    var o := CheckClosers(buf, c.v, c.last, Close(buf, c.st, c.last, 0, 0));
    o.(reports := c.reports + o.reports)
  }

  /** The comparison after the closing loop: the closers counted against the
      modifiers pushed, and the report of a mismatch. */
  function CheckClosers(buf: seq<char>, v: Var, last: Token, cl: Closed): VarOutcome
    requires cl.st.pos <= |buf|
  {
    var arrays, ptrs := CountOf(Array, v.modifier), CountOf(Ptr, v.modifier);
    if cl.arrays != arrays || cl.ptrs != ptrs then
      if last.kind == Name then
        var took := Next(buf, cl.st, false);
        NextMoves(buf, cl.st, false);
        VarOutcome(Err(Syntax("unknown token")), took.st,
                   ErrorEmits(buf, took.st.pos, took.st.line, last.size, "unknown token", None))
      else
        var msg := if cl.arrays != arrays then "wrong number of ending ]" else "wrong number of ending >";
        VarOutcome(Err(Syntax(msg)), cl.st, ErrorEmits(buf, cl.st.pos, cl.st.line, cl.last.size, msg, None))
    else VarOutcome(Ok(v), cl.st, [])
  }

  /** When the collecting loop did not break, it ended on a lookahead that
      possibly_var rejects, with the cursor at that token, so the token is
      left for the caller; when it broke, it ended on a consumed `mut` or
      `let`. */
  lemma {:induction false} CollectEndsOnLookahead(buf: seq<char>, st: St, v: Var)
    requires st.pos <= |buf|
    ensures var c := Collect(buf, st, v);
            (!c.stopped ==> !PossiblyVar(c.last.kind) && Next(buf, c.st, true) == Lexed(c.last, c.st) &&
                            SkipWs(buf, c.st.pos) == c.st.pos && c.last == Classify(buf, c.st.pos)) &&
            (c.stopped ==> c.last.kind == Mut || c.last.kind == Let)
    decreases |buf| - st.pos
  {
    var peek := Next(buf, st, true);
    NextMoves(buf, st, true);
    LookaheadIdempotent(buf, st);
    SkipWsIdempotent(buf, st.pos);
    if PossiblyVar(peek.tok.kind) {
      var took := Next(buf, peek.st, false);
      CollectStep(buf, st);
      if !Apply(v, peek.tok.kind, false).stop {
        CollectEndsOnLookahead(buf, took.st, Apply(v, peek.tok.kind, false).v);
      }
    }
  }

  /** The body of the collecting loop over token `k`: the pushes, and whether
      the loop breaks (a second `mut` at one level, or a late `let`). */
  method PushToken(v0: Var, k: TokenType, firstTime: bool) returns (v: Var, stop: bool)
    ensures Applied(v, stop) == Apply(v0, k, firstTime)
  {
    v, stop := v0, false;
    if k == Mut {
      if |v.isMutable| == |v.modifier| {
        v := v.(isMutable := v.isMutable + [true]);
      } else {
        stop := true;
      }
    } else {
      if |v.isMutable| == |v.modifier| {
        v := v.(isMutable := v.isMutable + [false]);
      }
      if k == LessThen {
        v := v.(modifier := v.modifier + [Ptr]);
      } else if k == StartRect {
        v := v.(modifier := v.modifier + [Array]);
      } else if k.VarTypeTok? {
        v := v.(varType := k.varType);
      } else if k == Let {
        stop := !firstTime;
      }
    }
  }

  /** The collecting loop of lex_var, with `first` already consumed: the Var,
      the token it ended on (`lex_token`) and the state it leaves. */
  method CollectTypeTokens(lb: LexBuffer, first: Token) returns (variable: Var, tok: Token)
    requires lb.Valid()
    modifies lb`pos, lb`lineNum, lb`out
    ensures lb.Valid()
    ensures var c := Collect(lb.buf, old(lb.State()), Start(first));
            variable == c.v && tok == c.last && lb.State() == c.st && lb.out == old(lb.out) + c.reports
  {
    ghost var goal := Collect(lb.buf, lb.State(), Start(first));
    var stop;
    variable, stop := PushToken(EmptyVar, first.kind, true);
    tok := first;
    ghost var taken: seq<Token> := [];
    CollectRemainsStart(lb.buf, lb.State(), variable);
    while true
      invariant lb.Valid() && lb.out == old(lb.out)
      invariant CollectRemains(lb.buf, lb.State(), variable, goal, taken)
      decreases |lb.buf| - lb.pos
    {
      var done;
      done, variable, tok, taken := CollectRound(lb, variable, goal, taken);
      if done {
        return;
      }
    }
  }

  /** What the collecting loop still has to do from `st` with `v` built,
      after the tokens already `taken`, is what remains of `goal`. */
  ghost predicate CollectRemains(buf: seq<char>, st: St, v: Var, goal: Collected, taken: seq<Token>) {
    st.pos <= |buf| &&
    var rest := Collect(buf, st, v);
    rest.(taken := taken + rest.taken) == goal
  }

  lemma CollectRemainsStart(buf: seq<char>, st: St, v: Var)
    requires st.pos <= |buf|
    ensures CollectRemains(buf, st, v, Collect(buf, st, v), [])
  {
    assert [] + Collect(buf, st, v).taken == Collect(buf, st, v).taken;
  }

  /** A pass of the collecting loop after the first: look ahead, stop at a
      token possibly_var rejects, otherwise consume it and push it. */
  method CollectRound(lb: LexBuffer, v: Var, ghost goal: Collected, ghost taken: seq<Token>)
    returns (done: bool, v': Var, tok: Token, ghost taken': seq<Token>)
    requires lb.Valid() && CollectRemains(lb.buf, lb.State(), v, goal, taken)
    modifies lb`pos, lb`lineNum, lb`out
    ensures lb.Valid()
    ensures done ==> v' == goal.v && tok == goal.last && lb.State() == goal.st && lb.out == old(lb.out) + goal.reports
    ensures !done ==> old(lb.pos) < lb.pos && lb.out == old(lb.out) && CollectRemains(lb.buf, lb.State(), v', goal, taken')
  {
    ghost var st := lb.State();
    tok := lb.LexString(true);
    if !PossiblyVar(tok.kind) {
      return true, v, tok, taken;
    }
    var consumed := lb.LexString(false);
    CollectStep(lb.buf, st);
    taken' := taken + [tok];
    var stop;
    v', stop := PushToken(v, tok.kind, false);
    if stop {
      if tok.kind == Let {
        var report := ReportError(lb.buf, lb.pos, lb.lineNum, tok.size, "unexpected \"let\"", None);
        lb.Write(report);
      }
      return true, v', tok, taken';
    }
    done := false;
    assert taken + ([tok] + Collect(lb.buf, lb.State(), v').taken) == taken' + Collect(lb.buf, lb.State(), v').taken;
  }

  /** The counting loop over the modifier stack. */
  method CountModifiers(mods: seq<Modifier>) returns (arrays: nat, ptrs: nat)
    ensures arrays == CountOf(Array, mods) && ptrs == CountOf(Ptr, mods)
  {
    arrays, ptrs := 0, 0;
    var k := 0;
    while k < |mods|
      invariant 0 <= k <= |mods|
      invariant arrays + CountOf(Array, mods[k..]) == CountOf(Array, mods)
      invariant ptrs + CountOf(Ptr, mods[k..]) == CountOf(Ptr, mods)
    {
      assert mods[k..][1..] == mods[k + 1..];
      if mods[k] == Ptr {
        ptrs := ptrs + 1;
      } else if mods[k] == Array {
        arrays := arrays + 1;
      }
      k := k + 1;
    }
  }

  /** One pass of the closing loop over a closer: it consumes exactly the
      closer, and the lookahead after it is again at a token start. */
  lemma CloseStep(buf: seq<char>, st: St, t2: Token, ca: nat, cp: nat)
    requires st.pos <= |buf| && IsCloser(t2.kind)
    requires SkipWs(buf, st.pos) == st.pos && t2 == Classify(buf, st.pos)
    ensures var took := Next(buf, st, false);
            var peek := Next(buf, took.st, true);
            took.st.pos == st.pos + 1 && took.st.line == st.line && took.tok == t2 &&
            st.pos < peek.st.pos <= |buf| &&
            SkipWs(buf, peek.st.pos) == peek.st.pos && peek.tok == Classify(buf, peek.st.pos) &&
            Close(buf, st, t2, ca, cp) ==
              Close(buf, peek.st, peek.tok, ca + (if t2.kind == EndRect then 1 else 0),
                    cp + (if t2.kind == BiggerThen then 1 else 0))
  {
    var took := Next(buf, st, false);
    NextMoves(buf, st, false);
    assert Newlines(buf, st.pos, st.pos) == 0;
    NextMoves(buf, took.st, true);
    SkipWsIdempotent(buf, took.st.pos);
  }

  /** The closing loop of lex_var, from current token `tok`, up to the first
      token that is neither `]` nor `>` (`lex_token2`). */
  method CountClosers(lb: LexBuffer, tok: Token) returns (arrays: nat, ptrs: nat, tok2: Token)
    requires lb.Valid()
    requires IsCloser(tok.kind) ==> SkipWs(lb.buf, lb.pos) == lb.pos && tok == Classify(lb.buf, lb.pos)
    modifies lb`pos, lb`lineNum
    ensures lb.Valid()
    ensures Close(lb.buf, old(lb.State()), tok, 0, 0) == Closed(arrays, ptrs, tok2, lb.State())
  {
    ghost var closed := Close(lb.buf, lb.State(), tok, 0, 0);
    tok2 := tok;
    arrays, ptrs := 0, 0;
    while true
      invariant lb.Valid()
      invariant IsCloser(tok2.kind) ==> SkipWs(lb.buf, lb.pos) == lb.pos && tok2 == Classify(lb.buf, lb.pos)
      invariant Close(lb.buf, lb.State(), tok2, arrays, ptrs) == closed
      decreases |lb.buf| - lb.pos
    {
      if !IsCloser(tok2.kind) {
        break;
      }
      CloseStep(lb.buf, lb.State(), tok2, arrays, ptrs);
      if tok2.kind == EndRect {
        tok2 := lb.LexString(false);
        arrays := arrays + 1;
      } else {
        tok2 := lb.LexString(false);
        ptrs := ptrs + 1;
      }
      tok2 := lb.LexString(true);
    }
  }

  /** The end of lex_var: compares the counts and reports a mismatch. */
  method CheckCounts(lb: LexBuffer, variable: Var, tok: Token, tok2: Token,
                     closingArrays: nat, closingPtrs: nat) returns (r: Result<Var>)
    requires lb.Valid()
    modifies lb`pos, lb`lineNum, lb`out
    ensures lb.Valid()
    ensures var o := CheckClosers(lb.buf, variable, tok, Closed(closingArrays, closingPtrs, tok2, old(lb.State())));
            r == o.result && lb.State() == o.st && lb.out == old(lb.out) + o.reports
  {
    var startingArrays, startingPtrs := CountModifiers(variable.modifier);
    if closingArrays != startingArrays || closingPtrs != startingPtrs {
      var msg: string;
      if tok.kind == Name {
        ghost var at := lb.State();
        var consumed := lb.LexString(false);
        NextMoves(lb.buf, at, false);
        msg := "unknown token";
        var report := ReportError(lb.buf, lb.pos, lb.lineNum, tok.size, msg, None);
        lb.Write(report);
      } else {
        msg := if closingArrays != startingArrays then "wrong number of ending ]"
               else "wrong number of ending >";
        var report := ReportError(lb.buf, lb.pos, lb.lineNum, tok2.size, msg, None);
        lb.Write(report);
      }
      return Err(Syntax(msg));
    }
    return Ok(variable);
  }

  /** lex_var, over the cursor of `lb`, with `first` already consumed. */
  method LexVar(lb: LexBuffer, first: Token) returns (r: Result<Var>)
    requires lb.Valid()
    modifies lb`pos, lb`lineNum, lb`out
    ensures lb.Valid()
    ensures var spec := LexVarSpec(lb.buf, old(lb.State()), first);
            r == spec.result && lb.State() == spec.st && lb.out == old(lb.out) + spec.reports
  {
    ghost var st0, out0 := lb.State(), lb.out;
    var variable, tok := CollectTypeTokens(lb, first);
    ghost var c := Collect(lb.buf, st0, Start(first));
    CollectEndsOnLookahead(lb.buf, st0, Start(first));
    var closingArrays, closingPtrs, tok2 := CountClosers(lb, tok);
    r := CheckCounts(lb, variable, tok, tok2, closingArrays, closingPtrs);
    ghost var o := CheckClosers(lb.buf, c.v, c.last, Close(lb.buf, c.st, c.last, 0, 0));
    Regroup(out0, c.reports, o.reports);
  }

  // ---- properties of lex_var ----

  /** The modifiers the tokens push: `<` a pointer, `[` an array. */
  function ModsOf(toks: seq<Token>): seq<Modifier>
    decreases |toks|
  {
    if toks == [] then [] else ModOf(toks[0].kind) + ModsOf(toks[1..])
  }

  /** The modifier a `<` or a `[` pushes. */
  function ModOf(k: TokenType): seq<Modifier> {
    if k == LessThen then [Ptr] else if k == StartRect then [Array] else []
  }

  lemma ApplyPushes(v: Var, k: TokenType, firstTime: bool)
    ensures Apply(v, k, firstTime).v.modifier == v.modifier + ModOf(k)
  {
  }

  /** The base type after the tokens: the last base-type token, or `t`. */
  function LastVarType(toks: seq<Token>, t: VarType): VarType
    decreases |toks|
  {
    if toks == [] then t
    else LastVarType(toks[1..], if toks[0].kind.VarTypeTok? then toks[0].kind.varType else t)
  }

  lemma ModsOfAppend(a: seq<Token>, b: seq<Token>)
    ensures ModsOf(a + b) == ModsOf(a) + ModsOf(b)
    decreases |a|
  {
    if a == [] {
      assert a + b == b;
    } else {
      assert a + b != [] && (a + b)[0] == a[0] && (a + b)[1..] == a[1..] + b;
      ModsOfAppend(a[1..], b);
      var h := ModOf(a[0].kind);
      assert ModsOf(a + b) == h + ModsOf(a[1..] + b);
      assert ModsOf(a) == h + ModsOf(a[1..]);
      assert h + (ModsOf(a[1..]) + ModsOf(b)) == (h + ModsOf(a[1..])) + ModsOf(b);
    }
  }

  /** The collecting loop keeps the stack shape: a mutability flag per
      modifier, plus at most one for the level a modifier has not yet
      opened. */
  lemma {:induction false} CollectKeepsShape(buf: seq<char>, st: St, v: Var)
    requires st.pos <= |buf| && StackShape(v)
    ensures StackShape(Collect(buf, st, v).v)
    decreases |buf| - st.pos
  {
    var peek := Next(buf, st, true);
    CollectStep(buf, st);
    if PossiblyVar(peek.tok.kind) {
      var took := Next(buf, peek.st, false);
      var a := Apply(v, peek.tok.kind, false);
      if !a.stop {
        CollectKeepsShape(buf, took.st, a.v);
      }
    }
  }

  /** The modifier stack is the one it started with, then one entry per `<`
      and `[` the loop consumed, in order. */
  lemma {:induction false} CollectModifiers(buf: seq<char>, st: St, v: Var)
    requires st.pos <= |buf|
    ensures var c := Collect(buf, st, v);
            c.v.modifier == v.modifier + ModsOf(c.taken)
    decreases |buf| - st.pos
  {
    var peek := Next(buf, st, true);
    CollectStep(buf, st);
    if PossiblyVar(peek.tok.kind) {
      var took := Next(buf, peek.st, false);
      var a := Apply(v, peek.tok.kind, false);
      ApplyPushes(v, peek.tok.kind, false);
      assert [peek.tok][1..] == [];
      assert ModsOf([peek.tok]) == ModOf(peek.tok.kind) + [];
      if !a.stop {
        CollectModifiers(buf, took.st, a.v);
        var rest := Collect(buf, took.st, a.v);
        ModsOfAppend([peek.tok], rest.taken);
        Regroup(v.modifier, ModOf(peek.tok.kind), ModsOf(rest.taken));
      }
    }
  }

  /** The last base type consumed wins. */
  lemma {:induction false} CollectVarType(buf: seq<char>, st: St, v: Var)
    requires st.pos <= |buf|
    ensures var c := Collect(buf, st, v);
            c.v.varType == LastVarType(c.taken, v.varType)
    decreases |buf| - st.pos
  {
    var peek := Next(buf, st, true);
    CollectStep(buf, st);
    if PossiblyVar(peek.tok.kind) {
      var took := Next(buf, peek.st, false);
      var a := Apply(v, peek.tok.kind, false);
      if a.stop {
        assert [peek.tok][1..] == [];
      } else {
        CollectVarType(buf, took.st, a.v);
        var rest := Collect(buf, took.st, a.v);
        assert ([peek.tok] + rest.taken)[1..] == rest.taken;
      }
    }
  }

  /** A successful lex_var returns the collected Var: it has at least one
      mutability flag, keeps the stack shape, has no name yet, and the
      closers matched its modifiers one for one. */
  lemma LexVarSuccess(buf: seq<char>, st: St, first: Token)
    requires st.pos <= |buf|
    ensures var o := LexVarSpec(buf, st, first);
            var c := Collect(buf, st, Start(first));
            o.result.Ok? ==>
              o.result.value == c.v && StackShape(c.v) && |c.v.isMutable| >= 1 && c.v.name == None &&
              o.reports == c.reports
  {
    var v0 := Start(first);
    assert StackShape(v0) && |v0.isMutable| == 1;
    CollectKeepsShape(buf, st, v0);
    CollectMonotone(buf, st, v0);
  }

  /** The mutability stack only grows, and the name is never set. */
  lemma {:induction false} CollectMonotone(buf: seq<char>, st: St, v: Var)
    requires st.pos <= |buf|
    ensures var c := Collect(buf, st, v);
            |v.isMutable| <= |c.v.isMutable| && c.v.name == v.name
    decreases |buf| - st.pos
  {
    var peek := Next(buf, st, true);
    CollectStep(buf, st);
    if PossiblyVar(peek.tok.kind) {
      var took := Next(buf, peek.st, false);
      var a := Apply(v, peek.tok.kind, false);
      if !a.stop {
        CollectMonotone(buf, took.st, a.v);
      }
    }
  }

  /** lex_var never moves the cursor backwards. */
  lemma LexVarAdvances(buf: seq<char>, st: St, first: Token)
    requires st.pos <= |buf|
    ensures st.pos <= LexVarSpec(buf, st, first).st.pos <= |buf|
  {
    CollectEndsOnLookahead(buf, st, Start(first));
    var c := Collect(buf, st, Start(first));
    var cl := Close(buf, c.st, c.last, 0, 0);
    NextMoves(buf, cl.st, false);
  }

  /** The closing loop stops at the first token that is neither `]` nor `>`;
      after a closer that token is a lookahead, left at the cursor. */
  lemma {:induction false} CloseEnds(buf: seq<char>, st: St, t2: Token, ca: nat, cp: nat)
    requires st.pos <= |buf|
    requires IsCloser(t2.kind) ==> SkipWs(buf, st.pos) == st.pos && t2 == Classify(buf, st.pos)
    ensures var c := Close(buf, st, t2, ca, cp);
            !IsCloser(c.last.kind) &&
            (IsCloser(t2.kind) ==> st.pos < c.st.pos && Next(buf, c.st, true) == Lexed(c.last, c.st)) &&
            (!IsCloser(t2.kind) ==> c == Closed(ca, cp, t2, st))
    decreases |buf| - st.pos
  {
    if IsCloser(t2.kind) {
      CloseStep(buf, st, t2, ca, cp);
      var took := Next(buf, st, false);
      var peek := Next(buf, took.st, true);
      CloseEnds(buf, peek.st, peek.tok, ca + (if t2.kind == EndRect then 1 else 0),
                cp + (if t2.kind == BiggerThen then 1 else 0));
      if !IsCloser(peek.tok.kind) {
        LookaheadIdempotent(buf, took.st);
      }
    }
  }

  /** lex_var fails exactly when the `]` or the `>` counted differ from the
      arrays or the pointers pushed. The message is "unknown token" when the
      collecting loop ended on a name, otherwise the `]` count is checked
      first. On success the cursor stays before the first token that is not
      a closer (unless `mut` or `let` ended the collecting loop). */
  lemma LexVarClosers(buf: seq<char>, st: St, first: Token)
    requires st.pos <= |buf|
    ensures (var c := Collect(buf, st, Start(first));
            CollectEndsOnLookahead(buf, st, Start(first));
            var cl := Close(buf, c.st, c.last, 0, 0);
            var arraysOk := cl.arrays == CountOf(Array, c.v.modifier);
            var ptrsOk := cl.ptrs == CountOf(Ptr, c.v.modifier);
            var o := LexVarSpec(buf, st, first);
            (o.result.Ok? <==> arraysOk && ptrsOk) &&
            (o.result.Err? ==>
               o.result.error == Syntax(if c.last.kind == Name then "unknown token"
                                        else if !arraysOk then "wrong number of ending ]"
                                        else "wrong number of ending >")) &&
            (o.result.Ok? ==> o.st == cl.st && !IsCloser(cl.last.kind) &&
                              (!c.stopped ==> Next(buf, o.st, true) == Lexed(cl.last, o.st))))
  {
    var c := Collect(buf, st, Start(first));
    CollectEndsOnLookahead(buf, st, Start(first));
    CloseEnds(buf, c.st, c.last, 0, 0);
  }

  /** `<i32> x` after its `<`: a pointer level over i32, neither level
      mutable, with the cursor left before the name. */
  lemma PointerVarExample()
    ensures LexVarSpec("<i32> x", St(1, 1), Token(LessThen, 0, 1)) ==
            VarOutcome(Ok(Var([Ptr], [false, false], None, I32)), St(6, 1), [])
  {
    var buf := "<i32> x";
    var v1 := Var([Ptr], [false], None, Any);
    var v2 := Var([Ptr], [false, false], None, I32);
    assert Start(Token(LessThen, 0, 1)) == v1;
    ExampleCollect();
    ExampleClose();
    ExampleCheck();
  }

  lemma ExampleCheck()
    ensures var v2 := Var([Ptr], [false, false], None, I32);
            CheckClosers("<i32> x", v2, Token(BiggerThen, 4, 1), Closed(0, 1, Token(Name, 6, 1), St(6, 1))) ==
            VarOutcome(Ok(v2), St(6, 1), [])
  {
    assert [Ptr][1..] == [];
    assert CountOf(Array, [Ptr]) == 0 && CountOf(Ptr, [Ptr]) == 1;
  }

  lemma ExampleCollect()
    ensures Collect("<i32> x", St(1, 1), Var([Ptr], [false], None, Any)) ==
            Collected(Var([Ptr], [false, false], None, I32), Token(BiggerThen, 4, 1), St(4, 1),
                      [Token(VarTypeTok(I32), 1, 3)], [], false)
  {
    ExampleTypeToken();
    var v2 := Var([Ptr], [false, false], None, I32);
    assert Apply(Var([Ptr], [false], None, Any), VarTypeTok(I32), false) == Applied(v2, false);
    ExampleCollectTail();
  }

  lemma ExampleTypeToken()
    ensures Next("<i32> x", St(1, 1), true) == Lexed(Token(VarTypeTok(I32), 1, 3), St(1, 1))
    ensures Next("<i32> x", St(1, 1), false) == Lexed(Token(VarTypeTok(I32), 1, 3), St(4, 1))
  {
    var buf := "<i32> x";
    assert HasPrefix(buf, 1, VarTypeName(I32));
    VarTypeSpellingLexes(buf, 1, I32);
    assert SkipWs(buf, 1) == 1;
    assert Newlines(buf, 1, 1) == 0;
  }

  lemma ExampleCollectTail()
    ensures var v2 := Var([Ptr], [false, false], None, I32);
            Collect("<i32> x", St(4, 1), v2) == Collected(v2, Token(BiggerThen, 4, 1), St(4, 1), [], [], false)
  {
    var buf := "<i32> x";
    assert Classify(buf, 4) == Token(BiggerThen, 4, 1);
    assert Newlines(buf, 4, 4) == 0;
    assert Next(buf, St(4, 1), true) == Lexed(Token(BiggerThen, 4, 1), St(4, 1));
  }

  lemma ExampleClose()
    ensures Close("<i32> x", St(4, 1), Token(BiggerThen, 4, 1), 0, 0) ==
            Closed(0, 1, Token(Name, 6, 1), St(6, 1))
  {
    var buf := "<i32> x";
    ExampleCloser();
    ExampleName();
    assert Close(buf, St(6, 1), Token(Name, 6, 1), 0, 1) == Closed(0, 1, Token(Name, 6, 1), St(6, 1));
  }

  lemma ExampleCloser()
    ensures Next("<i32> x", St(4, 1), false) == Lexed(Token(BiggerThen, 4, 1), St(5, 1))
  {
    assert Classify("<i32> x", 4) == Token(BiggerThen, 4, 1);
  }

  lemma ExampleName()
    ensures Next("<i32> x", St(5, 1), true) == Lexed(Token(Name, 6, 1), St(6, 1))
  {
    var buf := "<i32> x";
    assert SkipWs(buf, 5) == 6;
    NoFixedWord(buf, 6);
    NoTableMatchAtNonLetter(buf, 7);
    assert FirstMatch(buf, 6, KeywordNames, 0) == 4;
    assert FirstMatch(buf, 6, VarTypeNames, 0) == 11;
    assert Classify(buf, 6) == Token(Name, 6, 1);
    assert Newlines(buf, 5, 6) == 0;
  }
}
