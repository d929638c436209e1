/** Properties of the top-level loop: what a signature line holds, how a
    buffer ends, and how a comment moves the cursor. */
module DriverProps {
  import opened Text
  import opened Tables
  import opened Diagnostics
  import opened Lexer
  import opened LexerProps
  import opened TypeParser
  import opened Render
  import opened FunctionParser
  import opened Driver

  lemma CountOfThree(c: char, a: string, b: string, d: string)
    ensures Count(c, a + b + d) == Count(c, a) + Count(c, b) + Count(c, d)
  {
    CountAppend(c, a + b, d);
    CountAppend(c, a, b);
  }

  lemma FixedPiecesHaveNoComma()
    ensures Count(',', " const") == 0 && Count(',', "") == 0 && Count(',', "auto") == 0
    ensures Count(',', "std::span<") == 0 && Count(',', ">") == 0 && Count(',', "*") == 0
  {
    WordsHaveNoComma();
    CountAbsent(',', "std::span<");
  }

  lemma WordsHaveNoComma()
    ensures Count(',', " const") == 0 && Count(',', "auto") == 0
  {
    CountAbsent(',', " const");
    CountAbsent(',', "auto");
  }

  /** The level below the last modifier, or an unset base type. */
  lemma BaseHasNoComma(v: Var, i: nat)
    requires RecurseVar(v, i).Some?
    requires v.varType == Any || !(i < |v.modifier| && (v.modifier[i] == Array || v.modifier[i] == Ptr))
    ensures Count(',', RecurseVar(v, i).value) == 0
  {
    var suffix := if !v.isMutable[i] then " const" else "";
    FixedPiecesHaveNoComma();
    if v.varType == Any {
      CountAppend(',', "auto", suffix);
    } else {
      VarTypeNameHasNoComma(v.varType);
      CountAppend(',', VarTypeName(v.varType), suffix);
    }
  }

  lemma VarTypeNameHasNoComma(t: VarType)
    ensures Count(',', VarTypeName(t)) == 0
  {
    var w := VarTypeName(t);
    assert forall k :: 0 <= k < |w| ==> IsAlnum(w[k]) by { VarTypeNamesWellSpelled(); }
    CountAbsent(',', w);
  }

  /** A modifier level adds no comma to the level below. */
  lemma LevelAddsNoComma(v: Var, i: nat)
    requires RecurseVar(v, i).Some? && v.varType != Any && i < |v.modifier|
    requires v.modifier[i] == Array || v.modifier[i] == Ptr
    ensures RecurseVar(v, i + 1).Some?
    ensures Count(',', RecurseVar(v, i).value) == Count(',', RecurseVar(v, i + 1).value)
  {
    var inner := RecurseVar(v, i + 1).value;
    var suffix := if !v.isMutable[i] then " const" else "";
    if v.modifier[i] == Array {
      assert RecurseVar(v, i).value == "std::span<" + inner + ">" + suffix;
      PieceAddsNoComma("std::span<", inner, ">", suffix);
    } else {
      assert RecurseVar(v, i).value == "" + inner + "*" + suffix;
      PieceAddsNoComma("", inner, "*", suffix);
    }
  }

  lemma PieceAddsNoComma(a: string, inner: string, b: string, suffix: string)
    requires a in {"std::span<", ""} && b in {">", "*"} && suffix in {" const", ""}
    ensures Count(',', a + inner + b + suffix) == Count(',', inner)
  {
    FixedPiecesHaveNoComma();
    CountOfFour(',', a, inner, b, suffix);
  }

  /** No rendered type holds a comma. */
  lemma {:induction false} TypeHasNoComma(v: Var, i: nat)
    requires RecurseVar(v, i).Some?
    ensures Count(',', RecurseVar(v, i).value) == 0
    decreases |v.modifier| - i
  {
    if v.varType != Any && i < |v.modifier| && (v.modifier[i] == Array || v.modifier[i] == Ptr) {
      LevelAddsNoComma(v, i);
      TypeHasNoComma(v, i + 1);
    } else {
      BaseHasNoComma(v, i);
    }
  }

  /** Joining comma-free items puts exactly one comma between neighbours. */
  lemma {:induction false} JoinedCommas(ts: seq<string>)
    requires forall k :: 0 <= k < |ts| ==> Count(',', ts[k]) == 0
    ensures Count(',', Joined(ts)) == if ts == [] then 0 else |ts| - 1
    decreases |ts|
  {
    if |ts| == 0 {
    } else if |ts| == 1 {
    } else {
      var init := ts[..|ts| - 1];
      assert forall k :: 0 <= k < |init| ==> init[k] == ts[k];
      JoinedCommas(init);
      CountAbsent(',', " ");
      CountAppend(',', ",", " ");
      assert ", " == "," + " ";
      CountOfThree(',', Joined(init), ", ", ts[|ts| - 1]);
    }
  }

  /** A signature line lists the parameter types only: it holds one comma per
      pair of neighbouring parameters and no other. */
  lemma SignatureCommas(buf: seq<char>, f: Function)
    requires SignatureText(buf, f).Some?
    ensures Count(',', SignatureText(buf, f).value) == if f.params == [] then 0 else |f.params| - 1
  {
    var ret := RecurseVar(f.returnType, 0).value;
    var ts := ParamTypes(f.params).value;
    var name := NameAt(buf, f.name.value);
    TypeHasNoComma(f.returnType, 0);
    forall k | 0 <= k < |ts|
      ensures Count(',', ts[k]) == 0
    {
      TypeHasNoComma(f.params[k], 0);
    }
    JoinedCommas(ts);
    CountAbsent(',', name);
    CountAbsent(',', " ");
    CountAbsent(',', "(");
    CountAbsent(',', ")\n");
    CountOfFour(',', ret, " ", name, "(");
    CountOfThree(',', ret + " " + name + "(", Joined(ts), ")\n");
  }

  /** `i32 f(mut i32 a, u8 b)` keeps only the parameter types. */
  lemma SignatureExample()
    ensures var buf := "i32 f(mut i32 a, u8 b)";
            SignatureText(buf, Function(Var([], [false], Some(4), I32), Some(4),
                                        [Var([], [true], Some(14), I32), Var([], [false], Some(20), U8)])) ==
            Some("i32 const f(i32, u8 const)\n")
  {
    var buf := "i32 f(mut i32 a, u8 b)";
    ExampleName(buf);
    ExampleTypes();
    ExampleJoined();
    ExampleLine();
  }

  lemma ExampleJoined()
    ensures Joined(["i32", "u8 const"]) == "i32, u8 const"
  {
    var ts := ["i32", "u8 const"];
    assert ts[..1] == ["i32"];
    assert Joined(ts) == "i32" + ", " + "u8 const";
  }

  lemma ExampleLine()
    ensures "i32 const" + " " + "f" + "(" + "i32, u8 const" + ")\n" == "i32 const f(i32, u8 const)\n"
  {
  }

  lemma ExampleName(buf: seq<char>)
    requires buf == "i32 f(mut i32 a, u8 b)"
    ensures NameAt(buf, 4) == "f"
  {
    assert NameLength(buf, 5) == 0;
  }

  lemma ExampleTypes()
    ensures RecurseVar(Var([], [false], Some(4), I32), 0) == Some("i32 const")
    ensures ParamTypes([Var([], [true], Some(14), I32), Var([], [false], Some(20), U8)]) == Some(["i32", "u8 const"])
  {
    assert VarTypeName(I32) == "i32" && VarTypeName(U8) == "u8";
    var ps := [Var([], [true], Some(14), I32), Var([], [false], Some(20), U8)];
    assert "i32" + "" == "i32" && "u8" + " const" == "u8 const" && "i32" + " const" == "i32 const";
    assert RecurseVar(ps[0], 0) == Some("i32");
    assert RecurseVar(ps[1], 0) == Some("u8 const");
    assert ps[..1] == [ps[0]] && [ps[0]][..0] == [];
    assert [] + ["i32"] == ["i32"] && ["i32"] + ["u8 const"] == ["i32", "u8 const"];
    assert ParamTypes([ps[0]]) == Some(["i32"]);
  }

  /** When only spaces and line breaks are left, the loop stops with exit
      status 1 and writes nothing: every buffer that is read to its end makes
      the program fail. */
  lemma EndOfInputExitsOne(buf: seq<char>, st: St)
    requires st.pos <= |buf| && At(buf, SkipWs(buf, st.pos)) == NUL
    ensures RunLoop(buf, st).result == Ok(ExitOne) && RunLoop(buf, st).reports == []
  {
    NextMoves(buf, st, false);
    TokenBounds(buf, SkipWs(buf, st.pos));
  }

  /** A `//` comment moves the cursor to the start of the next line, or to
      the end of input, without counting the line break it passes. */
  lemma CommentKeepsLineCount(buf: seq<char>, st: St)
    requires st.pos <= |buf| && Next(buf, st, false).tok.kind == SLComment
    ensures var t := RunStep(buf, st);
            var after := Next(buf, st, false).st;
            t.RunAgain? && t.reports == [] && t.st.line == after.line &&
            st.pos < t.st.pos && after.pos <= t.st.pos &&
            (At(buf, t.st.pos - 1) == '\n' || At(buf, t.st.pos) == NUL)
  {
    NextMoves(buf, st, false);
    TokenBounds(buf, SkipWs(buf, st.pos));
  }
}
