/** Properties of lex_expr: the shape of every tree it builds, where its
    leaves end, and the kinds of failure it can return. */
module ExprProps {
  import opened Text
  import opened Tables
  import opened Lexer
  import opened LexerProps
  import opened TypeParser
  import opened ExprParser

  /** The destination of a `mut`/`let` initialisation: no modifiers, one
      flag, a name and the unset base type. */
  predicate InitDest(v: Var) {
    v.modifier == [] && |v.isMutable| == 1 && v.name.Some? && v.varType == Any
  }

  /** A capsule list of lex_expr: at least one capsule; the first has a
      prefix exactly in the outermost call; every later one has none. */
  predicate CapsulesShape(cs: seq<Capsule>, outerMost: bool) {
    |cs| > 0 && (cs[0].pre.Some? <==> outerMost) && forall j :: 0 < j < |cs| ==> cs[j].pre.None?
  }

  /** What lex_expr returns: a failure only by divergence (the syntax errors
      it meets are reported and parsing goes on), capsule lists of the shape
      above, and VarInits with an `InitDest` destination. */
  predicate Shaped(r: Result<Expr>, outerMost: bool) {
    match r
    case Err(e) => e == Diverges
    case Ok(Capsules(cs)) => CapsulesShape(cs, outerMost)
    case Ok(VarInit(dest, _)) => InitDest(dest)
    case Ok(_) => true
  }

  /** The capsule list `cs` extends the capsule being built: it starts with
      the capsules already closed, then the open one with its prefix, and
      every capsule after that has no prefix. */
  predicate Extends(cs: seq<Capsule>, open: Open) {
    |cs| > |open.caps| && cs[..|open.caps|] == open.caps && cs[|open.caps|].pre == open.pre &&
    forall j :: |open.caps| < j < |cs| ==> cs[j].pre.None?
  }

  /** The capsule loop either keeps building the open capsule or closes it
      (keeping its prefix) and opens one without a prefix. */
  predicate Advances(open: Open, open': Open) {
    (open'.caps == open.caps && open'.pre == open.pre) ||
    (|open'.caps| == |open.caps| + 1 && open'.caps[..|open.caps|] == open.caps &&
     open'.caps[|open.caps|].pre == open.pre && open'.pre.None?)
  }

  /** What the capsule loop returns from `open`. */
  predicate LoopShaped(r: Result<Expr>, open: Open) {
    match r
    case Err(e) => e == Diverges
    case Ok(e) => e.Capsules? && Extends(e.capsules, open)
  }

  lemma ExtendsBack(cs: seq<Capsule>, open: Open, open': Open)
    requires Advances(open, open') && Extends(cs, open')
    ensures Extends(cs, open)
  {
    if open'.caps != open.caps || open'.pre != open.pre {
      var n := |open.caps|;
      assert cs[..n] == cs[..n + 1][..n];
      assert cs[n] == cs[..n + 1][n];
    }
  }

  lemma {:induction false} ExprFromShaped(buf: seq<char>, st: St, outerMost: bool)
    requires st.pos <= |buf|
    ensures Shaped(ExprFrom(buf, st, outerMost).result, outerMost)
    decreases |buf| - st.pos, 4
  {
    var p := SkipSpaces(buf, st.pos);
    ExprLoopShaped(buf, St(p, st.line), p, outerMost);
  }

  lemma {:induction false} ExprLoopShaped(buf: seq<char>, st: St, pre: nat, outerMost: bool)
    requires st.pos <= |buf|
    ensures Shaped(ExprLoop(buf, st, pre, outerMost).result, outerMost)
    decreases |buf| - st.pos, 3
  {
    var t := ExprStep(buf, st, pre, outerMost);
    ExprStepShaped(buf, st, pre, outerMost);
    if t.ExprAgain? {
      ExprLoopShaped(buf, t.st, pre, outerMost);
    }
  }

  lemma {:induction false} ExprStepShaped(buf: seq<char>, st: St, pre: nat, outerMost: bool)
    requires st.pos <= |buf|
    ensures var t := ExprStep(buf, st, pre, outerMost);
            t.ExprDone? ==> Shaped(t.out.result, outerMost)
    decreases |buf| - st.pos, 2
  {
    var peek := Next(buf, st, true);
    NextMoves(buf, st, true);
    if !AtLineEnd(buf, st, peek) && peek.tok.kind != Eof {
      ExprTakeShaped(buf, peek.st, st.pos, pre, outerMost);
    }
  }

  lemma {:induction false} ExprTakeShaped(buf: seq<char>, at: St, start: nat, pre: nat, outerMost: bool)
    requires start <= at.pos <= |buf|
    ensures var t := ExprTake(buf, at, start, pre, outerMost);
            t.ExprDone? ==> Shaped(t.out.result, outerMost)
    decreases |buf| - at.pos, 1
  {
    var took := Next(buf, at, false);
    NextMoves(buf, at, false);
    OneCharToken(buf, SkipWs(buf, at.pos));
    var k := took.tok.kind;
    if k == StartParen {
      var first := if outerMost then Some(Span(pre, took.st.pos - pre - 1)) else None;
      ParenShaped(buf, took.st, outerMost, first);
    } else if k == Mut || k == Let {
      TokenBounds(buf, SkipWs(buf, at.pos));
      VarInitShaped(buf, took.st, k == Mut);
    }
  }

  lemma {:induction false} ParenShaped(buf: seq<char>, st: St, outerMost: bool, first: Option<Span>)
    requires st.pos <= |buf| && (first.Some? <==> outerMost)
    ensures Shaped(ParenFrom(buf, st, outerMost, first).result, outerMost)
    ensures ParenFrom(buf, st, outerMost, first).result.Ok? ==> ParenFrom(buf, st, outerMost, first).result.value.Capsules?
    decreases |buf| - st.pos, 5
  {
    var inner := ExprFrom(buf, st, false);
    ExprFromShaped(buf, st, false);
    if inner.result.Ok? {
      CapsuleLoopShaped(buf, inner.st, outerMost, Open([], first, inner.result.value, inner.st.pos));
    }
  }

  /** Also: the destination's one flag says whether the keyword was `mut`. */
  lemma {:induction false} VarInitShaped(buf: seq<char>, st: St, isMut: bool)
    requires st.pos <= |buf|
    ensures var r := VarInitFrom(buf, st, isMut).result;
            Shaped(r, false) && (r.Ok? ==> r.value.VarInit? || r.value.Unset?) &&
            (r.Ok? && r.value.VarInit? ==> r.value.dest.isMutable == [isMut])
    decreases |buf| - st.pos, 0
  {
    var name := Next(buf, st, false);
    NextMoves(buf, st, false);
    if name.tok.kind == Name {
      var assign := Next(buf, name.st, false);
      NextMoves(buf, name.st, false);
      OneCharToken(buf, SkipWs(buf, name.st.pos));
      if assign.tok.kind == Assign {
        ExprFromShaped(buf, assign.st, false);
      }
    }
  }

  lemma {:induction false} CapsuleLoopShaped(buf: seq<char>, st: St, outerMost: bool, open: Open)
    requires st.pos <= |buf|
    ensures LoopShaped(CapsuleLoop(buf, st, outerMost, open).result, open)
    decreases |buf| - st.pos, 3
  {
    var t := CapsuleStep(buf, st, outerMost, open);
    CapsuleStepShaped(buf, st, outerMost, open);
    if t.CapsuleAgain? {
      CapsuleLoopShaped(buf, t.st, outerMost, t.open);
      var r := CapsuleLoop(buf, t.st, outerMost, t.open).result;
      if r.Ok? {
        ExtendsBack(r.value.capsules, open, t.open);
      }
    }
  }

  lemma {:induction false} CapsuleStepShaped(buf: seq<char>, st: St, outerMost: bool, open: Open)
    requires st.pos <= |buf|
    ensures var t := CapsuleStep(buf, st, outerMost, open);
            (t.CapsuleDone? ==> LoopShaped(t.out.result, open)) &&
            (t.CapsuleAgain? ==> Advances(open, t.open))
    decreases |buf| - st.pos, 2
  {
    var peek := Next(buf, st, true);
    NextMoves(buf, st, true);
    if !AtLineEnd(buf, st, peek) && peek.tok.kind != Eof {
      CapsuleTakeShaped(buf, peek.st, st.pos, outerMost, open);
    } else if outerMost {
      var n := |open.caps|;
      var cs := CapsuleStep(buf, st, outerMost, open).out.result.value.capsules;
      assert cs[..n] == open.caps;
    }
  }

  lemma {:induction false} CapsuleTakeShaped(buf: seq<char>, at: St, start: nat, outerMost: bool, open: Open)
    requires start <= at.pos <= |buf|
    ensures var t := CapsuleTake(buf, at, start, outerMost, open);
            (t.CapsuleDone? ==> LoopShaped(t.out.result, open)) &&
            (t.CapsuleAgain? ==> Advances(open, t.open))
    decreases |buf| - at.pos, 1
  {
    var took := Next(buf, at, false);
    NextMoves(buf, at, false);
    OneCharToken(buf, SkipWs(buf, at.pos));
    var n := |open.caps|;
    if took.tok.kind == StartParen {
      ExprFromShaped(buf, took.st, false);
      var t := CapsuleTake(buf, at, start, outerMost, open);
      if t.CapsuleAgain? {
        assert t.open.caps[..n] == open.caps;
      }
    } else if !outerMost && took.tok.kind == EndParen {
      var cs := CapsuleTake(buf, at, start, outerMost, open).out.result.value.capsules;
      assert cs[..n] == open.caps;
    }
  }

  /** A parenthesis token is the parenthesis character at its offset. */
  lemma ParenAt(buf: seq<char>, q: nat)
    ensures Classify(buf, q).kind == StartParen ==> At(buf, q) == '('
    ensures Classify(buf, q).kind == EndParen ==> At(buf, q) == ')'
  {
  }

  /** In the outermost call the first capsule's prefix runs from `pre_paren`
      to just before the `(` that opened it. */
  lemma PrefixEndsAtParen(buf: seq<char>, at: St, start: nat, pre: nat)
    requires pre <= start <= at.pos <= |buf|
    ensures var t := ExprTake(buf, at, start, pre, true);
            t.ExprDone? && t.out.result.Ok? && t.out.result.value.Capsules? ==>
              |t.out.result.value.capsules| > 0 &&
              var c := t.out.result.value.capsules[0];
              c.pre.Some? && c.pre.value.start == pre && pre + c.pre.value.size >= 0 &&
              At(buf, pre + c.pre.value.size) == '('
  {
    var took := Next(buf, at, false);
    NextMoves(buf, at, false);
    var q := SkipWs(buf, at.pos);
    ParenAt(buf, q);
    OneCharToken(buf, q);
    var k := took.tok.kind;
    if k == StartParen {
      var first := Some(Span(pre, took.st.pos - pre - 1));
      var inner := ExprFrom(buf, took.st, false);
      if inner.result.Ok? {
        CapsuleLoopShaped(buf, inner.st, true, Open([], first, inner.result.value, inner.st.pos));
      }
    } else if k == Mut || k == Let {
      VarInitShaped(buf, took.st, k == Mut);
    }
  }

  /** Where a leaf ends: in the outermost call at the cursor lex_expr leaves,
      in a nested call just before the `)` it consumed. */
  predicate LeafEnds(buf: seq<char>, r: Result<Expr>, pre: nat, outerMost: bool, end: nat) {
    r.Ok? && r.value.Leaf? ==>
      var s := r.value.leaf;
      s.start == pre &&
      (outerMost ==> s.start + s.size == end) &&
      (!outerMost ==> s.start + s.size + 1 == end && end > 0 && At(buf, end - 1) == ')')
  }

  /** A leaf spans from the first character that is not a space. */
  lemma ExprLeafEnds(buf: seq<char>, st: St, outerMost: bool)
    requires st.pos <= |buf|
    ensures var o := ExprFrom(buf, st, outerMost);
            LeafEnds(buf, o.result, SkipSpaces(buf, st.pos), outerMost, o.st.pos)
  {
    var p := SkipSpaces(buf, st.pos);
    ExprLoopLeafEnds(buf, St(p, st.line), p, outerMost);
  }

  lemma {:induction false} ExprLoopLeafEnds(buf: seq<char>, st: St, pre: nat, outerMost: bool)
    requires st.pos <= |buf|
    ensures var o := ExprLoop(buf, st, pre, outerMost);
            LeafEnds(buf, o.result, pre, outerMost, o.st.pos)
    decreases |buf| - st.pos
  {
    var t := ExprStep(buf, st, pre, outerMost);
    var peek := Next(buf, st, true);
    NextMoves(buf, st, true);
    if !AtLineEnd(buf, st, peek) && peek.tok.kind != Eof {
      ExprTakeLeafEnds(buf, peek.st, st.pos, pre, outerMost);
    }
    if t.ExprAgain? {
      ExprLoopLeafEnds(buf, t.st, pre, outerMost);
    }
  }

  lemma ExprTakeLeafEnds(buf: seq<char>, at: St, start: nat, pre: nat, outerMost: bool)
    requires start <= at.pos <= |buf|
    ensures var t := ExprTake(buf, at, start, pre, outerMost);
            t.ExprDone? ==> LeafEnds(buf, t.out.result, pre, outerMost, t.out.st.pos)
  {
    var took := Next(buf, at, false);
    NextMoves(buf, at, false);
    var q := SkipWs(buf, at.pos);
    OneCharToken(buf, q);
    ParenAt(buf, q);
    if took.tok.kind == StartParen {
      var first := if outerMost then Some(Span(pre, took.st.pos - pre - 1)) else None;
      ParenShaped(buf, took.st, outerMost, first);
    } else if took.tok.kind == Mut || took.tok.kind == Let {
      TokenBounds(buf, q);
      VarInitShaped(buf, took.st, took.tok.kind == Mut);
    }
  }

  /** Where the capsule tails end: each tail but the last ends just before
      the `(` that opens the next capsule; in a nested call the last tail
      ends at the cursor, and so takes in the `)` that closed the call. */
  predicate TailsEnd(buf: seq<char>, cs: seq<Capsule>, from: nat, outerMost: bool, end: nat) {
    (forall j :: from <= j < |cs| - 1 ==>
       cs[j].post.start + cs[j].post.size >= 0 && At(buf, cs[j].post.start + cs[j].post.size) == '(') &&
    (!outerMost && |cs| > 0 ==>
       cs[|cs| - 1].post.start + cs[|cs| - 1].post.size == end && end > 0 && At(buf, end - 1) == ')')
  }

  /** The capsule a pass closes at a `(` ends just before that `(`. */
  predicate ClosedAtParen(buf: seq<char>, open: Open, open': Open) {
    |open'.caps| > |open.caps| ==>
      var c := open'.caps[|open.caps|];
      c.post.start + c.post.size >= 0 && At(buf, c.post.start + c.post.size) == '('
  }

  lemma {:induction false} CapsuleLoopTails(buf: seq<char>, st: St, outerMost: bool, open: Open)
    requires st.pos <= |buf|
    ensures var o := CapsuleLoop(buf, st, outerMost, open);
            o.result.Ok? && o.result.value.Capsules? ==>
              TailsEnd(buf, o.result.value.capsules, |open.caps|, outerMost, o.st.pos)
    decreases |buf| - st.pos
  {
    var t := CapsuleStep(buf, st, outerMost, open);
    CapsuleStepTails(buf, st, outerMost, open);
    if t.CapsuleAgain? {
      CapsuleLoopTails(buf, t.st, outerMost, t.open);
      CapsuleStepShaped(buf, st, outerMost, open);
      CapsuleLoopShaped(buf, t.st, outerMost, t.open);
      var o := CapsuleLoop(buf, t.st, outerMost, t.open);
      if o.result.Ok? {
        TailsBack(buf, o.result.value.capsules, outerMost, o.st.pos, open, t.open);
      }
    }
  }

  lemma TailsBack(buf: seq<char>, cs: seq<Capsule>, outerMost: bool, end: nat, open: Open, open': Open)
    requires Advances(open, open') && Extends(cs, open') && ClosedAtParen(buf, open, open')
    requires TailsEnd(buf, cs, |open'.caps|, outerMost, end)
    ensures TailsEnd(buf, cs, |open.caps|, outerMost, end)
  {
    if |open'.caps| > |open.caps| {
      var n := |open.caps|;
      assert cs[n] == cs[..n + 1][n] == open'.caps[n];
    }
  }

  lemma CapsuleStepTails(buf: seq<char>, st: St, outerMost: bool, open: Open)
    requires st.pos <= |buf|
    ensures var t := CapsuleStep(buf, st, outerMost, open);
            (t.CapsuleDone? && t.out.result.Ok? && t.out.result.value.Capsules? ==>
               TailsEnd(buf, t.out.result.value.capsules, |open.caps|, outerMost, t.out.st.pos)) &&
            (t.CapsuleAgain? ==> ClosedAtParen(buf, open, t.open))
  {
    var peek := Next(buf, st, true);
    NextMoves(buf, st, true);
    if !AtLineEnd(buf, st, peek) && peek.tok.kind != Eof {
      var took := Next(buf, peek.st, false);
      NextMoves(buf, peek.st, false);
      var q := SkipWs(buf, peek.st.pos);
      OneCharToken(buf, q);
      ParenAt(buf, q);
    }
  }

  /** As written, an outermost capsule closed by a `{` right after its `)`
      gets a tail of length -1. */
  lemma CurlyRightAfterParen(buf: seq<char>, st: St, open: Open)
    requires st.pos < |buf| && buf[st.pos] == '{' && open.preEnd == st.pos
    ensures var t := CapsuleStep(buf, st, true, open);
            t.CapsuleDone? && t.out.result.Ok? && t.out.result.value.Capsules? &&
            var cs := t.out.result.value.capsules;
            |cs| > 0 && cs[|cs| - 1].post.size == -1
  {
    assert SkipWs(buf, st.pos) == st.pos;
  }
}
