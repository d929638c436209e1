/** recurse_var: the C++ spelling of a parsed type. The source asserts that
    the level it renders has a mutability flag; a level without one is the
    None result here. */
module Render {
  import opened Text
  import opened Tables
  import opened TypeParser
  import opened ExprParser

  predicate EndsWith(s: string, w: string) {
    |w| <= |s| && s[|s| - |w|..] == w
  }

  /** The spelling of level `i` of `v` and everything inside it: " const"
      after a level that is not mutable, "auto" for an unset base type
      whatever the modifiers, `std::span<...>` for an array level, `...*`
      for a pointer level, and the base type's table spelling below the last
      modifier. */
  function RecurseVar(v: Var, i: nat): (r: Option<string>)
    decreases |v.modifier| - i
  {
    if i >= |v.isMutable| then None
    else
      var suffix := if !v.isMutable[i] then " const" else "";
      if v.varType == Any then Some("auto" + suffix)
      else if i < |v.modifier| && v.modifier[i] == Array then
        match RecurseVar(v, i + 1)
        case None => None
        case Some(inner) => Some("std::span<" + inner + ">" + suffix)
      else if i < |v.modifier| && v.modifier[i] == Ptr then
        match RecurseVar(v, i + 1)
        case None => None
        case Some(inner) => Some(inner + "*" + suffix)
      else Some(VarTypeName(v.varType) + suffix)
  }

  /** Rendering succeeds exactly when every level it visits has a flag: the
      level itself, and, below a modifier of a typed Var, one flag more than
      there are modifiers. */
  lemma {:induction false} RenderableIff(v: Var, i: nat)
    ensures RecurseVar(v, i).Some? <==>
            i < |v.isMutable| && (v.varType == Any || i >= |v.modifier| || |v.modifier| < |v.isMutable|)
    decreases |v.modifier| - i
  {
    if i < |v.isMutable| && v.varType != Any && i < |v.modifier| {
      RenderableIff(v, i + 1);
    }
  }

  /** A Var whose stack has one flag more than its modifiers (the shape every
      base type token leaves) always renders. */
  lemma VarWithBaseRenders(v: Var)
    requires |v.isMutable| == |v.modifier| + 1
    ensures RecurseVar(v, 0).Some?
  {
    RenderableIff(v, 0);
  }

  /** The level is `const` exactly when it is not mutable. */
  lemma {:induction false} ConstIffNotMutable(v: Var, i: nat)
    requires RecurseVar(v, i).Some?
    ensures i < |v.isMutable|
    ensures EndsWith(RecurseVar(v, i).value, " const") <==> !v.isMutable[i]
    decreases |v.modifier| - i
  {
    var s := RecurseVar(v, i).value;
    if v.isMutable[i] {
      assert |s| > 0 && s[|s| - 1] != 't' by {
        if v.varType == Any {
          assert s == "auto";
        } else if i < |v.modifier| && v.modifier[i] != Array && v.modifier[i] != Ptr {
          assert false;
        } else if i < |v.modifier| {
          var inner := RecurseVar(v, i + 1).value;
          assert s == "std::span<" + inner + ">" || s == inner + "*";
        } else {
          var w := VarTypeName(v.varType);
          assert s == w + "";
          assert w[|w| - 1] != 't' by { VarTypeNamesEndings(v.varType); }
        }
      }
    }
  }

  lemma CountOfFour(c: char, a: string, b: string, d: string, e: string)
    ensures Count(c, a + b + d + e) == Count(c, a) + Count(c, b) + Count(c, d) + Count(c, e)
  {
    CountAppend(c, a + b + d, e);
    CountAppend(c, a + b, d);
    CountAppend(c, a, b);
  }

  lemma VarTypeNamesEndings(t: VarType)
    ensures |VarTypeName(t)| > 0 && VarTypeName(t)[|VarTypeName(t)| - 1] != 't'
    ensures Count('*', VarTypeName(t)) == 0 && Count('<', VarTypeName(t)) == 0
  {
    var w := VarTypeName(t);
    assert forall k :: 0 <= k < |w| ==> IsAlnum(w[k]) by { VarTypeNamesWellSpelled(); }
    CountAbsent('*', w);
    CountAbsent('<', w);
  }

  /** Neither the const suffix nor the span and pointer marks hold a
      character of the other kind. */
  lemma FixedPieceCounts()
    ensures Count('*', " const") == 0 && Count('<', " const") == 0
    ensures Count('*', "") == 0 && Count('<', "") == 0
    ensures Count('*', "std::span<") == 0 && Count('<', "std::span<") == 1
    ensures Count('*', ">") == 0 && Count('<', ">") == 0
    ensures Count('*', "*") == 1 && Count('<', "*") == 0
  {
    FixedPieceStars();
    FixedPieceAngles();
  }

  lemma FixedPieceStars()
    ensures Count('*', " const") == 0 && Count('*', "") == 0 && Count('*', "std::span<") == 0
    ensures Count('*', ">") == 0 && Count('*', "*") == 1
  {
    CountAbsent('*', " const");
    CountAbsent('*', "std::span<");
  }

  lemma FixedPieceAngles()
    ensures Count('<', " const") == 0 && Count('<', "") == 0 && Count('<', "std::span<") == 1
    ensures Count('<', ">") == 0 && Count('<', "*") == 0
  {
    CountAbsent('<', " const");
    CountAbsent('<', "std::span");
    CountAppend('<', "std::span", "<");
    assert "std::span" + "<" == "std::span<";
  }

  /** The level below the last modifier: the base type and its suffix. */
  lemma RenderedBase(v: Var, i: nat)
    requires RecurseVar(v, i).Some? && v.varType != Any && i == |v.modifier|
    ensures Count('*', RecurseVar(v, i).value) == 0 && Count('<', RecurseVar(v, i).value) == 0
  {
    var suffix := if !v.isMutable[i] then " const" else "";
    FixedPieceCounts();
    VarTypeNamesEndings(v.varType);
    CountAppend('*', VarTypeName(v.varType), suffix);
    CountAppend('<', VarTypeName(v.varType), suffix);
  }

  /** A modifier level adds its own mark to the counts of the level below. */
  lemma RenderedLevel(v: Var, i: nat)
    requires RecurseVar(v, i).Some? && v.varType != Any && i < |v.modifier|
    ensures RecurseVar(v, i + 1).Some?
    ensures var s, inner := RecurseVar(v, i).value, RecurseVar(v, i + 1).value;
            Count('*', s) == Count('*', inner) + (if v.modifier[i] == Ptr then 1 else 0) &&
            Count('<', s) == Count('<', inner) + (if v.modifier[i] == Array then 1 else 0)
  {
    var s := RecurseVar(v, i).value;
    var inner := RecurseVar(v, i + 1).value;
    var suffix := if !v.isMutable[i] then " const" else "";
    FixedPieceCounts();
    if v.modifier[i] == Array {
      assert s == "std::span<" + inner + ">" + suffix;
      CountOfFour('*', "std::span<", inner, ">", suffix);
      CountOfFour('<', "std::span<", inner, ">", suffix);
    } else {
      assert s == "" + inner + "*" + suffix;
      CountOfFour('*', "", inner, "*", suffix);
      CountOfFour('<', "", inner, "*", suffix);
    }
  }

  /** The spelling holds one '*' per pointer level and one '<' per array
      level from level `i` on, so no modifier is dropped or duplicated. */
  lemma {:induction false} RenderedModifiers(v: Var, i: nat)
    requires RecurseVar(v, i).Some? && v.varType != Any && i <= |v.modifier|
    ensures Count('*', RecurseVar(v, i).value) == CountOf(Ptr, v.modifier[i..])
    ensures Count('<', RecurseVar(v, i).value) == CountOf(Array, v.modifier[i..])
    decreases |v.modifier| - i
  {
    if i == |v.modifier| {
      RenderedBase(v, i);
      assert v.modifier[i..] == [];
    } else {
      RenderedLevel(v, i);
      RenderedModifiers(v, i + 1);
      assert v.modifier[i..][1..] == v.modifier[i + 1..];
    }
  }

  /** `<i32>`: a const pointer to a const i32. */
  lemma ConstPointerSpelling()
    ensures RecurseVar(Var([Ptr], [false, false], None, I32), 0) == Some("i32 const* const")
  {
    var v := Var([Ptr], [false, false], None, I32);
    assert VarTypeName(I32) == "i32";
    assert !v.isMutable[1] && !(1 < |v.modifier|);
    assert "i32" + " const" == "i32 const";
    assert RecurseVar(v, 1) == Some("i32 const");
    assert v.modifier[0] == Ptr && !v.isMutable[0];
    assert "i32 const" + "*" + " const" == "i32 const* const";
  }

  /** `mut <mut i32>`: only the levels named mutable lose the const. */
  lemma MutablePointerSpelling()
    ensures RecurseVar(Var([Ptr], [true, true], None, I32), 0) == Some("i32*")
  {
    var v := Var([Ptr], [true, true], None, I32);
    assert VarTypeName(I32) == "i32";
    assert v.isMutable[1] && !(1 < |v.modifier|);
    assert "i32" + "" == "i32";
    assert RecurseVar(v, 1) == Some("i32");
    assert v.modifier[0] == Ptr && v.isMutable[0];
    assert "i32" + "*" + "" == "i32*";
  }

  /** An unset base type renders as `auto` and drops every modifier. */
  lemma AnyDropsModifiers()
    ensures RecurseVar(Var([Array, Ptr], [true, false], None, Any), 0) == Some("auto")
  {
    assert "auto" + "" == "auto";
  }

  /** `<i32<>>` reaches a pointer level with no flag, where the source's
      assertion fails. */
  lemma MissingFlagFails()
    ensures RecurseVar(Var([Ptr, Ptr], [false, false], None, I32), 0) == None
  {
  }

  /** What recurse_expr returns, with the declarations it prints on the way
      (one line per VarInit, in the order they are printed). */
  datatype Rendered = Rendered(text: string, decls: seq<string>)

  /** `std::string(content, size)` for a span of the buffer; a negative size
      or a span past the end has no such string. */
  function SpanText(buf: seq<char>, s: Span): (r: Option<string>)
    ensures r.Some? <==> 0 <= s.size && s.start + s.size <= |buf|
    ensures r.Some? ==> |r.value| == s.size
  {
    if 0 <= s.size && s.start + s.size <= |buf| then Some(buf[s.start..s.start + s.size]) else None
  }

  /** The name at offset `n`, as buffer_string_ptr delimits it. */
  function NameAt(buf: seq<char>, n: nat): (name: string)
    ensures forall k :: 0 <= k < |name| ==> NameChar(name[k])
  {
    if n <= |buf| then
      var name := buf[n..n + NameLength(buf, n)];
      assert forall k :: 0 <= k < |name| ==> name[k] == At(buf, n + k);
      name
    else ""
  }

  /** The declaration printed for a VarInit's destination. */
  function DeclLine(buf: seq<char>, dest: Var): (r: Option<string>)
  {
    match (RecurseVar(dest, 0), dest.name)
    case (Some(ty), Some(n)) => Some(ty + " " + NameAt(buf, n) + ";\n")
    case _ => None
  }

  /** recurse_expr: a leaf is its text; capsules are, in order, each prefix,
      the inside in parentheses and the tail; a VarInit is `name = rhs`, its
      declaration printed after those of the right-hand side. An Unset
      expression or a span with no text renders to None. */
  function RecurseExpr(buf: seq<char>, e: Expr): (r: Option<Rendered>)
    decreases e
  {
    match e
    case Leaf(s) =>
      if SpanText(buf, s).Some? then Some(Rendered(SpanText(buf, s).value, [])) else None
    case Capsules(cs) => RecurseCapsules(buf, cs)
    case VarInit(dest, rhs) =>
      (match (RecurseExpr(buf, rhs), DeclLine(buf, dest))
       case (Some(inner), Some(decl)) =>
         var name := NameAt(buf, dest.name.value);
         Some(Rendered(name + " = " + inner.text, inner.decls + [decl]))
       case _ => None)
    case Unset => None
  }

  /** The loop of recurse_expr over the first |cs| capsules. */
  function RecurseCapsules(buf: seq<char>, cs: seq<Capsule>): (r: Option<Rendered>)
    decreases cs
  {
    if cs == [] then Some(Rendered("", []))
    else
      match (RecurseCapsules(buf, cs[..|cs| - 1]), RenderCapsule(buf, cs[|cs| - 1]))
      case (Some(done), Some(piece)) => Some(Rendered(done.text + piece.text, done.decls + piece.decls))
      case _ => None
  }

  /** One capsule: prefix (when set), `(`, inside, `)`, tail. */
  function RenderCapsule(buf: seq<char>, c: Capsule): (r: Option<Rendered>)
    decreases c
  {
    var pre := if c.pre.Some? then SpanText(buf, c.pre.value) else Some("");
    match (pre, RecurseExpr(buf, c.inside), SpanText(buf, c.post))
    case (Some(p), Some(inner), Some(tail)) => Some(Rendered(p + "(" + inner.text + ")" + tail, inner.decls))
    case _ => None
  }

  /** recurse_expr with its loop over the capsules. */
  method RenderExpr(buf: seq<char>, e: Expr) returns (r: Option<Rendered>)
    ensures r == RecurseExpr(buf, e)
    decreases e
  {
    match e {
      case Leaf(s) =>
        var t := SpanText(buf, s);
        r := if t.Some? then Some(Rendered(t.value, [])) else None;
      case Capsules(cs) =>
        r := Some(Rendered("", []));
        for j := 0 to |cs|
          invariant r == RecurseCapsules(buf, cs[..j])
        {
          var c := cs[j];
          var pre := if c.pre.Some? then SpanText(buf, c.pre.value) else Some("");
          var inner := RenderExpr(buf, c.inside);
          var tail := SpanText(buf, c.post);
          assert cs[..j + 1][..j] == cs[..j];
          if r.Some? && pre.Some? && inner.Some? && tail.Some? {
            var out := r.value.text + (pre.value + "(" + inner.value.text + ")" + tail.value);
            r := Some(Rendered(out, r.value.decls + inner.value.decls));
          } else {
            r := None;
          }
        }
        assert cs[..|cs|] == cs;
      case VarInit(dest, rhs) =>
        var inner := RenderExpr(buf, rhs);
        var decl := DeclLine(buf, dest);
        if inner.Some? && decl.Some? {
          var name := NameAt(buf, dest.name.value);
          r := Some(Rendered(name + " = " + inner.value.text, inner.value.decls + [decl.value]));
        } else {
          r := None;
        }
      case Unset =>
        r := None;
    }
  }

  /** The number of `mut`/`let` initialisations in an expression tree. */
  function VarInits(e: Expr): nat
    decreases e
  {
    match e
    case Leaf(_) => 0
    case Capsules(cs) => CapsuleVarInits(cs)
    case VarInit(_, rhs) => 1 + VarInits(rhs)
    case Unset => 0
  }

  function CapsuleVarInits(cs: seq<Capsule>): nat
    decreases cs
  {
    if cs == [] then 0 else CapsuleVarInits(cs[..|cs| - 1]) + InsideVarInits(cs[|cs| - 1])
  }

  function InsideVarInits(c: Capsule): nat
    decreases c
  {
    VarInits(c.inside)
  }

  /** Rendering prints one declaration per initialisation in the tree, at
      whatever depth it sits. */
  lemma {:induction false} OneDeclPerVarInit(buf: seq<char>, e: Expr)
    requires RecurseExpr(buf, e).Some?
    ensures |RecurseExpr(buf, e).value.decls| == VarInits(e)
    decreases e
  {
    match e {
      case Leaf(_) =>
      case Capsules(cs) => CapsuleDecls(buf, cs);
      case VarInit(_, rhs) => OneDeclPerVarInit(buf, rhs);
    }
  }

  lemma {:induction false} CapsuleDecls(buf: seq<char>, cs: seq<Capsule>)
    requires RecurseCapsules(buf, cs).Some?
    ensures |RecurseCapsules(buf, cs).value.decls| == CapsuleVarInits(cs)
    decreases cs
  {
    if cs != [] {
      CapsuleDecls(buf, cs[..|cs| - 1]);
      InsideDecls(buf, cs[|cs| - 1]);
    }
  }

  lemma {:induction false} InsideDecls(buf: seq<char>, c: Capsule)
    requires RenderCapsule(buf, c).Some?
    ensures |RenderCapsule(buf, c).value.decls| == InsideVarInits(c)
    decreases c
  {
    OneDeclPerVarInit(buf, c.inside);
  }

  /** `mut a = let b = x`: the inner declaration is printed first, and the
      returned text chains the assignments. */
  lemma NestedInitsInnermostFirst()
    ensures var buf := "mut a = let b = x";
            RecurseExpr(buf, VarInit(Var([], [true], Some(4), Any),
                                     VarInit(Var([], [false], Some(12), Any), Leaf(Span(16, 1))))) ==
            Some(Rendered("a = b = x", ["auto const b;\n", "auto a;\n"]))
  {
    var buf := "mut a = let b = x";
    OneCharName(buf, 4);
    OneCharName(buf, 12);
    assert buf[16..17] == [buf[16]] == "x";
    assert "auto" + "" == "auto" && "auto" + " const" == "auto const";
    assert "auto const" + " " + "b" + ";\n" == "auto const b;\n" && "auto" + " " + "a" + ";\n" == "auto a;\n";
    assert "b" + " = " + "x" == "b = x" && "a" + " = " + "b = x" == "a = b = x";
    var a, b := Var([], [true], Some(4), Any), Var([], [false], Some(12), Any);
    assert RecurseExpr(buf, Leaf(Span(16, 1))) == Some(Rendered("x", []));
    assert DeclLine(buf, b) == Some("auto const b;\n");
    assert RecurseExpr(buf, VarInit(b, Leaf(Span(16, 1)))) == Some(Rendered("b = x", [] + ["auto const b;\n"]));
    assert DeclLine(buf, a) == Some("auto a;\n");
    assert [] + ["auto const b;\n"] == ["auto const b;\n"];
    assert ["auto const b;\n"] + ["auto a;\n"] == ["auto const b;\n", "auto a;\n"];
    assert RecurseExpr(buf, VarInit(a, VarInit(b, Leaf(Span(16, 1))))) ==
           Some(Rendered("a" + " = " + "b = x", ["auto const b;\n"] + ["auto a;\n"]));
  }

  /** A name character followed by one that is not is a name of length 1. */
  lemma OneCharName(buf: seq<char>, n: nat)
    requires n + 1 < |buf| && NameChar(buf[n]) && !NameChar(buf[n + 1])
    ensures NameAt(buf, n) == [buf[n]]
  {
    assert NameLength(buf, n + 1) == 0;
  }

  /** The declaration of a parsed initialisation: `auto`, ` const` unless the
      keyword was `mut`, then the name. */
  lemma InitDeclSpelling(buf: seq<char>, v: Var)
    requires v.modifier == [] && |v.isMutable| == 1 && v.name.Some? && v.varType == Any
    ensures DeclLine(buf, v) ==
            Some("auto" + (if v.isMutable[0] then "" else " const") + " " + NameAt(buf, v.name.value) + ";\n")
  {
  }
}
