/** lex_expr: splits the text of an expression into parenthesised capsules,
    leaves and `mut`/`let` initialisations. Spans are (offset, size) pairs
    into the buffer, as the source's Buffer views are; a size can come out
    negative, as the source computes it. */
module ExprParser {
  import opened Text
  import opened Tables
  import opened Diagnostics
  import opened Lexer
  import opened LexerProps
  import opened TypeParser

  datatype Span = Span(start: nat, size: int)

  /** `pre` is None where the source leaves the Buffer empty (a capsule that
      is not the first of an outermost expression). */
  datatype Capsule = Capsule(pre: Option<Span>, post: Span, inside: Expr)

  /** `Unset` is an Expr whose type the source never assigns: the result of a
      `mut`/`let` without a name or without `=`. */
  datatype Expr = Leaf(leaf: Span) | Capsules(capsules: seq<Capsule>) | VarInit(dest: Var, rhs: Expr) | Unset

  /** What one call of lex_expr returns, the state it leaves and the reports
      it writes. */
  datatype ExprOut = ExprOut(result: Result<Expr>, st: St, reports: seq<Emit>)

  /** One pass of lex_expr's outer loop: it returns, or it goes round again
      from a later state. */
  datatype ExprTurn = ExprDone(out: ExprOut) | ExprAgain(st: St)

  /** The capsule being built: the capsules pushed so far, the open one's
      prefix and inside, and `pre_end_paren`, where its tail starts. */
  datatype Open = Open(caps: seq<Capsule>, pre: Option<Span>, inside: Expr, preEnd: nat)

  /** One pass of the capsule loop: it returns, or it goes round again from a
      later state with the capsule it is building and the reports written. */
  datatype CapsuleTurn = CapsuleDone(out: ExprOut) | CapsuleAgain(st: St, open: Open, reports: seq<Emit>)

  /** The offset after the run of ' ' at `p` (the skip at the start of
      lex_expr, which counts no lines). */
  function SkipSpaces(buf: seq<char>, p: nat): (q: nat)
    decreases |buf| - p
    ensures p <= q && (p <= |buf| ==> q <= |buf|)
    ensures forall k :: p <= k < q ==> At(buf, k) == ' '
    ensures At(buf, q) != ' '
  {
    if p < |buf| && buf[p] == ' ' then SkipSpaces(buf, p + 1) else p
  }

  /** A token of one of these kinds is a single character. */
  lemma OneCharToken(buf: seq<char>, p: nat)
    requires p <= |buf|
    ensures var t := Classify(buf, p);
            (t.kind == StartParen || t.kind == EndParen || t.kind == Assign || t.kind == StartCurly) ==>
              t.size == 1
  {
  }

  /** The end-of-line test of lex_expr's loops: the raw character at the
      cursor is the end of input or a '\n', or the lookahead token is `{`. */
  predicate AtLineEnd(buf: seq<char>, st: St, peek: Lexed) {
    At(buf, st.pos) == NUL || At(buf, st.pos) == '\n' || peek.tok.kind == StartCurly
  }

  /** The whole of lex_expr from state `st`. */
  function ExprFrom(buf: seq<char>, st: St, outerMost: bool): (o: ExprOut)
    requires st.pos <= |buf|
    ensures st.pos <= o.st.pos <= |buf|
    decreases |buf| - st.pos, 4
  {
    var p := SkipSpaces(buf, st.pos);
    ExprLoop(buf, St(p, st.line), p, outerMost)
  }

  /** The outer loop of lex_expr, with `pre` the offset `pre_paren`. */
  function ExprLoop(buf: seq<char>, st: St, pre: nat, outerMost: bool): (o: ExprOut)
    requires st.pos <= |buf|
    ensures st.pos <= o.st.pos <= |buf|
    decreases |buf| - st.pos, 3
  {
    match ExprStep(buf, st, pre, outerMost)
    case ExprDone(o) => o
    case ExprAgain(next) => ExprLoop(buf, next, pre, outerMost)
  }

  /** One pass of the outer loop: at the end of the line the outermost call
      closes its leaf, otherwise the token is taken. A pass that would leave the
      cursor where it was would repeat forever, and is reported as divergence. */
  function ExprStep(buf: seq<char>, st: St, pre: nat, outerMost: bool): (t: ExprTurn)
    requires st.pos <= |buf|
    ensures t.ExprDone? ==> st.pos <= t.out.st.pos <= |buf|
    ensures t.ExprAgain? ==> st.pos < t.st.pos <= |buf|
    decreases |buf| - st.pos, 2
  {
    var peek := Next(buf, st, true);
    NextMoves(buf, st, true);
    if !AtLineEnd(buf, st, peek) && peek.tok.kind != Eof then ExprTake(buf, peek.st, st.pos, pre, outerMost)
    else if outerMost then ExprDone(ExprOut(Ok(Leaf(Span(pre, peek.st.pos - pre))), peek.st, []))
    else if peek.st.pos == st.pos then ExprDone(ExprOut(Err(Diverges), st, []))
    else ExprAgain(peek.st)
  }

  /** The token-taking half of a pass, from `at`, where the lookahead left the
      cursor; `start` is where the pass began. The token taken is the one the
      lookahead saw (LookaheadThenConsume). */
  function ExprTake(buf: seq<char>, at: St, start: nat, pre: nat, outerMost: bool): (t: ExprTurn)
    requires start <= at.pos <= |buf|
    ensures t.ExprDone? ==> start <= t.out.st.pos <= |buf|
    ensures t.ExprAgain? ==> start < t.st.pos <= |buf|
    decreases |buf| - at.pos, 1
  {
    var took := Next(buf, at, false);
    NextMoves(buf, at, false);
    OneCharToken(buf, SkipWs(buf, at.pos));
    var k := took.tok.kind;
    if k == StartParen then
      var first := if outerMost then Some(Span(pre, took.st.pos - pre - 1)) else None;
      ExprDone(ParenFrom(buf, took.st, outerMost, first))
    else if k == Mut || k == Let then
      TokenBounds(buf, SkipWs(buf, at.pos));
      ExprDone(VarInitFrom(buf, took.st, k == Mut))
    else if !outerMost && k == EndParen then
      ExprDone(ExprOut(Ok(Leaf(Span(pre, took.st.pos - pre - 1))), took.st, []))
    else if took.st.pos == start then ExprDone(ExprOut(Err(Diverges), St(start, at.line), []))
    else ExprAgain(took.st)
  }

  /** After a `(`: the nested expression inside it, then the capsule loop
      with that inside as the open capsule's. */
  function ParenFrom(buf: seq<char>, st: St, outerMost: bool, first: Option<Span>): (o: ExprOut)
    requires st.pos <= |buf|
    ensures st.pos <= o.st.pos <= |buf|
    decreases |buf| - st.pos, 5
  {
    var inner := ExprFrom(buf, st, false);
    if inner.result.Err? then inner
    else
      var rest := CapsuleLoop(buf, inner.st, outerMost, Open([], first, inner.result.value, inner.st.pos));
      rest.(reports := inner.reports + rest.reports)
  }

  /** The `mut`/`let` branch after its keyword: a name, `=`, and a nested
      expression as the initialiser. */
  function VarInitFrom(buf: seq<char>, st: St, isMut: bool): (o: ExprOut)
    requires st.pos <= |buf|
    ensures st.pos <= o.st.pos <= |buf|
    decreases |buf| - st.pos, 0
  {
    var name := Next(buf, st, false);
    NextMoves(buf, st, false);
    if name.tok.kind == Name then
      var assign := Next(buf, name.st, false);
      NextMoves(buf, name.st, false);
      OneCharToken(buf, SkipWs(buf, name.st.pos));
      if assign.tok.kind == Assign then
        var dest := Var([], [isMut], Some(name.tok.start), Any);
        var rhs := ExprFrom(buf, assign.st, false);
        rhs.(result := if rhs.result.Ok? then Ok(VarInit(dest, rhs.result.value)) else rhs.result)
      else ExprOut(Ok(Unset), assign.st, ExpectationEmits(buf, assign.st.pos, assign.st.line, assign.tok.size, ["="]))
    else ExprOut(Ok(Unset), name.st, ExpectationEmits(buf, name.st.pos, name.st.line, name.tok.size, ["name"]))
  }

  /** The capsule loop of lex_expr. */
  function CapsuleLoop(buf: seq<char>, st: St, outerMost: bool, open: Open): (o: ExprOut)
    requires st.pos <= |buf|
    ensures st.pos <= o.st.pos <= |buf|
    decreases |buf| - st.pos, 3
  {
    match CapsuleStep(buf, st, outerMost, open)
    case CapsuleDone(o) => o
    case CapsuleAgain(next, open', written) =>
      var rest := CapsuleLoop(buf, next, outerMost, open');
      rest.(reports := written + rest.reports)
  }

  /** One pass of the capsule loop: at the end of the line the outermost call
      closes the open capsule, with a tail one longer at the end of input;
      otherwise the token is taken. */
  function CapsuleStep(buf: seq<char>, st: St, outerMost: bool, open: Open): (t: CapsuleTurn)
    requires st.pos <= |buf|
    ensures t.CapsuleDone? ==> st.pos <= t.out.st.pos <= |buf|
    ensures t.CapsuleAgain? ==> st.pos < t.st.pos <= |buf|
    decreases |buf| - st.pos, 2
  {
    var peek := Next(buf, st, true);
    NextMoves(buf, st, true);
    var eof := peek.tok.kind == Eof;
    if !AtLineEnd(buf, st, peek) && !eof then CapsuleTake(buf, peek.st, st.pos, outerMost, open)
    else if outerMost then
      var size := peek.st.pos - open.preEnd - 1 + (if eof then 1 else 0);
      var last := Capsule(open.pre, Span(open.preEnd, size), open.inside);
      CapsuleDone(ExprOut(Ok(Capsules(open.caps + [last])), peek.st, []))
    else if peek.st.pos == st.pos then CapsuleDone(ExprOut(Err(Diverges), st, []))
    else CapsuleAgain(peek.st, open, [])
  }

  /** The token-taking half of a capsule pass: a `(` closes the open capsule
      and lexes the next inside; in a nested call a `)` closes the expression;
      other tokens are passed over. */
  function CapsuleTake(buf: seq<char>, at: St, start: nat, outerMost: bool, open: Open): (t: CapsuleTurn)
    requires start <= at.pos <= |buf|
    ensures t.CapsuleDone? ==> start <= t.out.st.pos <= |buf|
    ensures t.CapsuleAgain? ==> start < t.st.pos <= |buf|
    decreases |buf| - at.pos, 1
  {
    var took := Next(buf, at, false);
    NextMoves(buf, at, false);
    OneCharToken(buf, SkipWs(buf, at.pos));
    var k := took.tok.kind;
    if k == StartParen then
      var closed := open.caps + [Capsule(open.pre, Span(open.preEnd, took.st.pos - open.preEnd - 1), open.inside)];
      var inner := ExprFrom(buf, took.st, false);
      if inner.result.Err? then CapsuleDone(inner)
      else CapsuleAgain(inner.st, Open(closed, None, inner.result.value, inner.st.pos), inner.reports)
    else if !outerMost && k == EndParen then
      var last := Capsule(open.pre, Span(open.preEnd, took.st.pos - open.preEnd), open.inside);
      CapsuleDone(ExprOut(Ok(Capsules(open.caps + [last])), took.st, []))
    else if took.st.pos == start then CapsuleDone(ExprOut(Err(Diverges), St(start, at.line), []))
    else CapsuleAgain(took.st, open, [])
  }

  /** lex_expr over the cursor of `lb`. */
  method LexExpr(lb: LexBuffer, outerMost: bool) returns (r: Result<Expr>)
    requires lb.Valid()
    modifies lb`pos, lb`lineNum, lb`out
    ensures lb.Valid()
    ensures var o := ExprFrom(lb.buf, old(lb.State()), outerMost);
            r == o.result && lb.State() == o.st && lb.out == old(lb.out) + o.reports
    decreases |lb.buf| - lb.pos, 4
  {
    ghost var p0 := lb.pos;
    while At(lb.buf, lb.pos) == ' '
      invariant p0 <= lb.pos <= |lb.buf| && SkipSpaces(lb.buf, lb.pos) == SkipSpaces(lb.buf, p0)
      invariant lb.out == old(lb.out) && lb.lineNum == old(lb.lineNum)
      decreases |lb.buf| - lb.pos
    {
      lb.pos := lb.pos + 1;
    }
    var preParen := lb.pos;
    ghost var goal := ExprLoop(lb.buf, lb.State(), preParen, outerMost);
    while true
      invariant lb.Valid() && p0 <= lb.pos && lb.out == old(lb.out)
      invariant ExprLoop(lb.buf, lb.State(), preParen, outerMost) == goal
      decreases |lb.buf| - lb.pos
    {
      var done;
      done, r := ExprPass(lb, preParen, outerMost);
      if done {
        return;
      }
    }
  }

  /** One pass of lex_expr's outer loop. */
  method ExprPass(lb: LexBuffer, preParen: nat, outerMost: bool) returns (done: bool, r: Result<Expr>)
    requires lb.Valid()
    modifies lb`pos, lb`lineNum, lb`out
    ensures lb.Valid()
    ensures var t := ExprStep(lb.buf, old(lb.State()), preParen, outerMost);
            done == t.ExprDone? &&
            (done ==> r == t.out.result && lb.State() == t.out.st && lb.out == old(lb.out) + t.out.reports) &&
            (!done ==> lb.State() == t.st && lb.out == old(lb.out))
    decreases |lb.buf| - lb.pos, 3
  {
    ghost var before := lb.State();
    var start := lb.pos;
    var isNewline := At(lb.buf, lb.pos) == NUL || At(lb.buf, lb.pos) == '\n';
    var tok := lb.LexString(true);
    isNewline := isNewline || tok.kind == StartCurly;
    NextMoves(lb.buf, before, true);
    if !isNewline && tok.kind != Eof {
      done, r := ExprTakePass(lb, start, preParen, outerMost);
    } else if outerMost {
      done, r := true, Ok(Leaf(Span(preParen, lb.pos - preParen)));
    } else if lb.pos == start {
      done, r := true, Err(Diverges);
    } else {
      done, r := false, Err(Diverges);
    }
  }

  /** The token-taking half of a pass of lex_expr's outer loop. */
  method ExprTakePass(lb: LexBuffer, start: nat, preParen: nat, outerMost: bool) returns (done: bool, r: Result<Expr>)
    requires lb.Valid() && start <= lb.pos
    modifies lb`pos, lb`lineNum, lb`out
    ensures lb.Valid()
    ensures var t := ExprTake(lb.buf, old(lb.State()), start, preParen, outerMost);
            done == t.ExprDone? &&
            (done ==> r == t.out.result && lb.State() == t.out.st && lb.out == old(lb.out) + t.out.reports) &&
            (!done ==> lb.State() == t.st && lb.out == old(lb.out))
    decreases |lb.buf| - lb.pos, 2
  {
    ghost var at := lb.State();
    var tok := lb.LexString(false);
    NextMoves(lb.buf, at, false);
    OneCharToken(lb.buf, SkipWs(lb.buf, at.pos));
    done, r := true, Err(Diverges);
    if tok.kind == StartParen {
      var first := if outerMost then Some(Span(preParen, lb.pos - preParen - 1)) else None;
      r := LexParen(lb, outerMost, first);
    } else if tok.kind == Mut || tok.kind == Let {
      TokenBounds(lb.buf, SkipWs(lb.buf, at.pos));
      r := LexVarInit(lb, tok.kind == Mut);
    } else if !outerMost && tok.kind == EndParen {
      r := Ok(Leaf(Span(preParen, lb.pos - preParen - 1)));
    } else if lb.pos != start {
      done := false;
    }
  }

  /** After a `(`: the nested lex_expr, then the capsule loop. */
  method LexParen(lb: LexBuffer, outerMost: bool, first: Option<Span>) returns (r: Result<Expr>)
    requires lb.Valid()
    modifies lb`pos, lb`lineNum, lb`out
    ensures lb.Valid()
    ensures var o := ParenFrom(lb.buf, old(lb.State()), outerMost, first);
            r == o.result && lb.State() == o.st && lb.out == old(lb.out) + o.reports
    decreases |lb.buf| - lb.pos, 5
  {
    ghost var out0 := lb.out;
    ghost var inner := ExprFrom(lb.buf, lb.State(), false);
    r := LexExpr(lb, false);
    if r.Ok? {
      ghost var rest := CapsuleLoop(lb.buf, inner.st, outerMost, Open([], first, inner.result.value, inner.st.pos));
      r := LexCapsules(lb, outerMost, Open([], first, r.value, lb.pos));
      assert lb.out == out0 + (inner.reports + rest.reports);
    }
  }

  /** The `mut`/`let` branch of lex_expr, after its keyword. */
  method LexVarInit(lb: LexBuffer, isMut: bool) returns (r: Result<Expr>)
    requires lb.Valid()
    modifies lb`pos, lb`lineNum, lb`out
    ensures lb.Valid()
    ensures var o := VarInitFrom(lb.buf, old(lb.State()), isMut);
            r == o.result && lb.State() == o.st && lb.out == old(lb.out) + o.reports
    decreases |lb.buf| - lb.pos, 0
  {
    var variable := Var([], [isMut], None, Any);
    ghost var st0 := lb.State();
    var tok := lb.LexString(false);
    NextMoves(lb.buf, st0, false);
    if tok.kind == Name {
      variable := variable.(name := Some(tok.start));
      ghost var st1 := lb.State();
      tok := lb.LexString(false);
      NextMoves(lb.buf, st1, false);
      OneCharToken(lb.buf, SkipWs(lb.buf, st1.pos));
      if tok.kind == Assign {
        var rhs := LexExpr(lb, false);
        if rhs.Err? {
          return rhs;
        }
        return Ok(VarInit(variable, rhs.value));
      } else {
        var e := ExpectationError(lb.buf, lb.pos, lb.lineNum, tok.size, ["="]);
        lb.Write(e);
        return Ok(Unset);
      }
    } else {
      var e := ExpectationError(lb.buf, lb.pos, lb.lineNum, tok.size, ["name"]);
      lb.Write(e);
      return Ok(Unset);
    }
  }

  /** One unfolding of the capsule loop past a pass that goes round again. */
  lemma CapsuleLoopAgain(buf: seq<char>, st: St, outerMost: bool, open: Open)
    requires st.pos <= |buf|
    requires CapsuleStep(buf, st, outerMost, open).CapsuleAgain?
    ensures var t := CapsuleStep(buf, st, outerMost, open);
            var rest := CapsuleLoop(buf, t.st, outerMost, t.open);
            CapsuleLoop(buf, st, outerMost, open) == rest.(reports := t.reports + rest.reports)
  {
  }

  /** One unfolding of the capsule loop at a pass that returns. */
  lemma CapsuleLoopDone(buf: seq<char>, st: St, outerMost: bool, open: Open)
    requires st.pos <= |buf|
    requires CapsuleStep(buf, st, outerMost, open).CapsuleDone?
    ensures CapsuleLoop(buf, st, outerMost, open) == CapsuleStep(buf, st, outerMost, open).out
  {
  }

  /** The capsule loop of lex_expr, entered after the first capsule's inside. */
  method LexCapsules(lb: LexBuffer, outerMost: bool, open0: Open) returns (r: Result<Expr>)
    requires lb.Valid()
    modifies lb`pos, lb`lineNum, lb`out
    ensures lb.Valid()
    ensures var o := CapsuleLoop(lb.buf, old(lb.State()), outerMost, open0);
            r == o.result && lb.State() == o.st && lb.out == old(lb.out) + o.reports
    decreases |lb.buf| - lb.pos, 4
  {
    var open := open0;
    ghost var goal := CapsuleLoop(lb.buf, lb.State(), outerMost, open);
    ghost var written: seq<Emit> := [];
    while true
      invariant lb.Valid() && old(lb.pos) <= lb.pos && lb.out == old(lb.out) + written
      invariant Remains(lb.buf, lb.State(), outerMost, open, goal, written)
      decreases |lb.buf| - lb.pos
    {
      var done;
      done, r, open, written := CapsuleRound(lb, outerMost, open, goal, old(lb.out), written);
      if done {
        return;
      }
    }
  }

  /** What the capsule loop still has to do from `st` with `open`, after the
      reports already `written`, is what remains of `goal`. */
  ghost predicate Remains(buf: seq<char>, st: St, outerMost: bool, open: Open, goal: ExprOut, written: seq<Emit>) {
    st.pos <= |buf| &&
    var rest := CapsuleLoop(buf, st, outerMost, open);
    goal.result == rest.result && goal.st == rest.st && goal.reports == written + rest.reports
  }

  /** A pass of the capsule loop, stated against what remains of the whole
      loop: it returns the loop's outcome, or it leaves less of the loop to do. */
  method CapsuleRound(lb: LexBuffer, outerMost: bool, open: Open, ghost goal: ExprOut,
                      ghost base: seq<Emit>, ghost written: seq<Emit>)
    returns (done: bool, r: Result<Expr>, open': Open, ghost written': seq<Emit>)
    requires lb.Valid() && lb.out == base + written
    requires Remains(lb.buf, lb.State(), outerMost, open, goal, written)
    modifies lb`pos, lb`lineNum, lb`out
    ensures lb.Valid() && lb.out == base + written'
    ensures done ==> r == goal.result && lb.State() == goal.st && written' == goal.reports
    ensures !done ==> old(lb.pos) < lb.pos && Remains(lb.buf, lb.State(), outerMost, open', goal, written')
    decreases |lb.buf| - lb.pos, 3
  {
    ghost var t := CapsuleStep(lb.buf, lb.State(), outerMost, open);
    RemainsAfterStep(lb.buf, lb.State(), outerMost, open, goal, written);
    ghost var out0 := lb.out;
    done, r, open' := CapsulePass(lb, outerMost, open);
    if done {
      written' := written + t.out.reports;
      assert lb.out == out0 + t.out.reports == base + written';
    } else {
      written' := written + t.reports;
      assert lb.out == out0 + t.reports == base + written';
    }
  }

  /** What remains of the loop after one pass: the outcome, when the pass
      returns, or the rest of the loop from where the pass left off. */
  lemma RemainsAfterStep(buf: seq<char>, st: St, outerMost: bool, open: Open, goal: ExprOut, written: seq<Emit>)
    requires Remains(buf, st, outerMost, open, goal, written)
    ensures var t := CapsuleStep(buf, st, outerMost, open);
            (t.CapsuleDone? ==> goal.result == t.out.result && goal.st == t.out.st &&
                                goal.reports == written + t.out.reports) &&
            (t.CapsuleAgain? ==> Remains(buf, t.st, outerMost, t.open, goal, written + t.reports))
  {
    var t := CapsuleStep(buf, st, outerMost, open);
    if t.CapsuleAgain? {
      RemainsAfterAgain(buf, st, outerMost, open, goal, written, t);
    } else {
      CapsuleLoopDone(buf, st, outerMost, open);
    }
  }

  lemma RemainsAfterAgain(buf: seq<char>, st: St, outerMost: bool, open: Open, goal: ExprOut,
                          written: seq<Emit>, t: CapsuleTurn)
    requires Remains(buf, st, outerMost, open, goal, written)
    requires t == CapsuleStep(buf, st, outerMost, open) && t.CapsuleAgain?
    ensures Remains(buf, t.st, outerMost, t.open, goal, written + t.reports)
  {
    CapsuleLoopAgain(buf, st, outerMost, open);
    var rest := CapsuleLoop(buf, t.st, outerMost, t.open);
    assert goal.reports == written + (t.reports + rest.reports);
  }

  /** One pass of the capsule loop. */
  method CapsulePass(lb: LexBuffer, outerMost: bool, open: Open) returns (done: bool, r: Result<Expr>, open': Open)
    requires lb.Valid()
    modifies lb`pos, lb`lineNum, lb`out
    ensures lb.Valid()
    ensures var t := CapsuleStep(lb.buf, old(lb.State()), outerMost, open);
            done == t.CapsuleDone? &&
            (done ==> r == t.out.result && lb.State() == t.out.st && lb.out == old(lb.out) + t.out.reports) &&
            (!done ==> lb.State() == t.st && open' == t.open && lb.out == old(lb.out) + t.reports)
    decreases |lb.buf| - lb.pos, 2
  {
    ghost var before := lb.State();
    var start := lb.pos;
    var isNewline := At(lb.buf, lb.pos) == NUL || At(lb.buf, lb.pos) == '\n';
    var tok := lb.LexString(true);
    isNewline := isNewline || tok.kind == StartCurly;
    var isEof := tok.kind == Eof;
    NextMoves(lb.buf, before, true);
    open' := open;
    if !isNewline && !isEof {
      done, r, open' := CapsuleTakePass(lb, start, outerMost, open);
    } else if outerMost {
      var size := lb.pos - open.preEnd - 1 + (if isEof then 1 else 0);
      var last := Capsule(open.pre, Span(open.preEnd, size), open.inside);
      done, r := true, Ok(Capsules(open.caps + [last]));
    } else if lb.pos == start {
      done, r := true, Err(Diverges);
    } else {
      done, r := false, Err(Diverges);
    }
  }

  /** The token-taking half of a capsule pass. */
  method CapsuleTakePass(lb: LexBuffer, start: nat, outerMost: bool, open: Open)
    returns (done: bool, r: Result<Expr>, open': Open)
    requires lb.Valid() && start <= lb.pos
    modifies lb`pos, lb`lineNum, lb`out
    ensures lb.Valid()
    ensures var t := CapsuleTake(lb.buf, old(lb.State()), start, outerMost, open);
            done == t.CapsuleDone? &&
            (done ==> r == t.out.result && lb.State() == t.out.st && lb.out == old(lb.out) + t.out.reports) &&
            (!done ==> lb.State() == t.st && open' == t.open && lb.out == old(lb.out) + t.reports)
    decreases |lb.buf| - lb.pos, 1
  {
    ghost var at := lb.State();
    var tok := lb.LexString(false);
    NextMoves(lb.buf, at, false);
    OneCharToken(lb.buf, SkipWs(lb.buf, at.pos));
    done, r, open' := true, Err(Diverges), open;
    if tok.kind == StartParen {
      var closed := open.caps + [Capsule(open.pre, Span(open.preEnd, lb.pos - open.preEnd - 1), open.inside)];
      r := LexExpr(lb, false);
      if r.Ok? {
        done, open' := false, Open(closed, None, r.value, lb.pos);
      }
    } else if !outerMost && tok.kind == EndParen {
      var last := Capsule(open.pre, Span(open.preEnd, lb.pos - open.preEnd), open.inside);
      r := Ok(Capsules(open.caps + [last]));
    } else if lb.pos != start {
      done := false;
    }
  }
}
