/** The base-type and keyword enums and their spelling tables
    (src/type_metagen.cpp), which the lexer scans and the renderer prints. */
module Tables {
  import opened Text

  datatype VarType = Any | I8 | I16 | I32 | I64 | U8 | U16 | U32 | U64 | Real32 | Real64

  /** var_types: entry i spells the VarType with enum value i. */
  const VarTypeNames: seq<string> :=
    ["any", "i8", "i16", "i32", "i64", "u8", "u16", "u32", "u64", "real32", "real64"]

  /** The enum value of a VarType, which indexes var_types. */
  function VarTypeIndex(t: VarType): (i: nat)
    ensures i < |VarTypeNames| && VarTypeAt(i) == t
  {
    match t
    case Any => 0 case I8 => 1 case I16 => 2 case I32 => 3 case I64 => 4
    case U8 => 5 case U16 => 6 case U32 => 7 case U64 => 8
    case Real32 => 9 case Real64 => 10
  }

  /** The cast `(VarType)i` of the lexer's table scan. */
  function VarTypeAt(i: nat): (t: VarType)
    requires i < |VarTypeNames|
  {
    [Any, I8, I16, I32, I64, U8, U16, U32, U64, Real32, Real64][i]
  }

  /** `var_types[t]`, the spelling the renderer prints for a base type. */
  function VarTypeName(t: VarType): string {
    VarTypeNames[VarTypeIndex(t)]
  }

  /** The keyword enum. `While` is not declared in type_metagen.cpp although
      the parsers test for it; it is added here as index 3. */
  datatype Keyword = Enum | Struct | Union | While

  /** keywords, extended with "while" at index 3. */
  const KeywordNames: seq<string> := ["enum", "struct", "union", "while"]

  function KeywordIndex(k: Keyword): (i: nat)
    ensures i < |KeywordNames| && KeywordAt(i) == k
  {
    match k
    case Enum => 0 case Struct => 1 case Union => 2 case While => 3
  }

  function KeywordAt(i: nat): (k: Keyword)
    requires i < |KeywordNames|
  {
    [Enum, Struct, Union, While][i]
  }

  function KeywordName(k: Keyword): string {
    KeywordNames[KeywordIndex(k)]
  }

  predicate IsPrefixOf(w: string, s: string) {
    |w| <= |s| && s[..|w|] == w
  }

  /** No entry of the table is a prefix of another entry. */
  ghost predicate PrefixFree(table: seq<string>) {
    forall i, j :: 0 <= i < |table| && 0 <= j < |table| && i != j ==> !IsPrefixOf(table[i], table[j])
  }

  /** A spelling the lexer can read back whole: it starts with a letter other
      than the first letters of `mut` and `let` (so neither of those is a
      prefix of it, nor it of them) and is alphanumeric. */
  ghost predicate WellSpelled(w: string) {
    |w| > 0 && IsAlpha(w[0]) && w[0] != 'm' && w[0] != 'l' &&
    (forall k :: 0 <= k < |w| ==> IsAlnum(w[k]))
  }

  /** Two words that differ at an index both have are not prefixes of each other. */
  lemma DifferAt(w: string, s: string, k: nat)
    requires k < |w| && k < |s| && w[k] != s[k]
    ensures !IsPrefixOf(w, s) && !IsPrefixOf(s, w)
  {
    assert |w| <= |s| ==> s[..|w|][k] == s[k];
    assert |s| <= |w| ==> w[..|s|][k] == w[k];
  }

  lemma VarTypeNamesPrefixFree()
    ensures PrefixFree(VarTypeNames)
  {
    forall i, j | 0 <= i < |VarTypeNames| && 0 <= j < |VarTypeNames| && i != j
      ensures !IsPrefixOf(VarTypeNames[i], VarTypeNames[j])
    {
      var w, s := VarTypeNames[i], VarTypeNames[j];
      if w[0] != s[0] { DifferAt(w, s, 0); }
      else if w[1] != s[1] { DifferAt(w, s, 1); }
      else { DifferAt(w, s, 4); }
    }
  }

  lemma KeywordNamesPrefixFree()
    ensures PrefixFree(KeywordNames)
  {
    forall i, j | 0 <= i < |KeywordNames| && 0 <= j < |KeywordNames| && i != j
      ensures !IsPrefixOf(KeywordNames[i], KeywordNames[j])
    {
      DifferAt(KeywordNames[i], KeywordNames[j], 0);
    }
  }

  lemma VarTypeNamesWellSpelled()
    ensures forall i :: 0 <= i < |VarTypeNames| ==> WellSpelled(VarTypeNames[i])
  {
    forall i | 0 <= i < |VarTypeNames| ensures WellSpelled(VarTypeNames[i]) {
      var w := VarTypeNames[i];
      assert IsLower(w[0]);
    }
  }

  lemma KeywordNamesWellSpelled()
    ensures forall i :: 0 <= i < |KeywordNames| ==> WellSpelled(KeywordNames[i])
  {
    forall i | 0 <= i < |KeywordNames| ensures WellSpelled(KeywordNames[i]) {
      var w := KeywordNames[i];
      assert IsLower(w[0]);
    }
  }

  lemma TablesDisjointPrefixes()
    ensures forall i, j :: 0 <= i < |VarTypeNames| && 0 <= j < |KeywordNames| ==>
              !IsPrefixOf(KeywordNames[j], VarTypeNames[i]) && !IsPrefixOf(VarTypeNames[i], KeywordNames[j])
  {
    forall i, j | 0 <= i < |VarTypeNames| && 0 <= j < |KeywordNames|
      ensures !IsPrefixOf(KeywordNames[j], VarTypeNames[i]) && !IsPrefixOf(VarTypeNames[i], KeywordNames[j])
    {
      var w, s := KeywordNames[j], VarTypeNames[i];
      if w[0] != s[0] { DifferAt(w, s, 0); } else { DifferAt(w, s, 1); }
    }
  }
}
