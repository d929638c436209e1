/** Properties of lex_string: it always returns a token, the first-match
    order of its classification, and the lookahead discipline. */
module LexerProps {
  import opened Text
  import opened Tables
  import opened Lexer

  /** Every token starts at the classified offset and lies inside the buffer;
      only the end of input, a digit run and a name that starts at a '.' can be
      empty, and only the end of input is classified at a NUL. */
  lemma TokenBounds(buf: seq<char>, p: nat)
    requires p <= |buf|
    ensures Classify(buf, p).start == p
    ensures p + Classify(buf, p).size <= |buf|
    ensures Classify(buf, p).kind == Eof <==> At(buf, p) == NUL
    ensures Classify(buf, p).size == 0 ==>
              Classify(buf, p).kind in {Eof, Number} ||
              (Classify(buf, p).kind == Name && At(buf, p) == '.')
  {
    var c := At(buf, p);
    if c != NUL && Punct(c).None? && !HasPrefix(buf, p, "//") && !HasPrefix(buf, p, "mut") &&
       !HasPrefix(buf, p, "let") && IsAlpha(At(buf, DigitRun(buf, p))) {
      KeywordNamesWellSpelled();
      VarTypeNamesWellSpelled();
      var k := FirstMatch(buf, p, KeywordNames, 0);
      var j := FirstMatch(buf, p, VarTypeNames, 0);
      if k == |KeywordNames| && j == |VarTypeNames| && At(buf, p) != '.' {
        if DigitRun(buf, p) == p {
          assert IsAlnum(At(buf, p));
        } else {
          assert IsDigit(At(buf, p));
        }
        assert AlnumRun(buf, p) > p;
      }
    }
  }

  /** The whitespace skip stops where it stops: skipping again moves nowhere. */
  lemma SkipWsIdempotent(buf: seq<char>, p: nat)
    requires p <= |buf|
    ensures SkipWs(buf, SkipWs(buf, p)) == SkipWs(buf, p)
  {
  }

  /** A lookahead call moves the cursor only across the whitespace it skips,
      counting one line per '\n' skipped; a consuming call also moves exactly
      `string_size` past the token. */
  lemma NextMoves(buf: seq<char>, st: St, lookahead: bool)
    requires st.pos <= |buf|
    ensures var r := Next(buf, st, lookahead);
            var q := SkipWs(buf, st.pos);
            r.st.pos == (if lookahead then q else q + r.tok.size) &&
            r.st.pos <= |buf| &&
            r.st.line == st.line + Newlines(buf, st.pos, q) &&
            r.tok == Classify(buf, q)
  {
    TokenBounds(buf, SkipWs(buf, st.pos));
  }

  /** Lookahead then consume returns the same token as consuming directly,
      ends in the same state, and counts each '\n' once. */
  lemma LookaheadThenConsume(buf: seq<char>, st: St)
    requires st.pos <= |buf|
    ensures var peek := Next(buf, st, true);
            peek.st.pos <= |buf| &&
            Next(buf, peek.st, false) == Next(buf, st, false) &&
            Next(buf, st, false).st.pos == peek.st.pos + peek.tok.size
  {
    var q := SkipWs(buf, st.pos);
    SkipWsIdempotent(buf, st.pos);
    assert Newlines(buf, q, q) == 0;
  }

  /** A repeated lookahead returns the same token without moving. */
  lemma LookaheadIdempotent(buf: seq<char>, st: St)
    requires st.pos <= |buf|
    ensures var peek := Next(buf, st, true);
            peek.st.pos <= |buf| && Next(buf, peek.st, true) == peek
  {
    var q := SkipWs(buf, st.pos);
    SkipWsIdempotent(buf, st.pos);
    assert Newlines(buf, q, q) == 0;
  }

  /** A word that matches at `p` starts with the character at `p`. */
  lemma PrefixHead(buf: seq<char>, p: nat, w: string)
    requires |w| > 0
    ensures HasPrefix(buf, p, w) ==> At(buf, p) == w[0]
  {
    assert p + |w| <= |buf| ==> buf[p..p + |w|][0] == buf[p];
  }

  /** Of two words that both match at `p`, the shorter is a prefix of the other. */
  lemma PrefixOfPrefix(buf: seq<char>, p: nat, w: string, v: string)
    ensures HasPrefix(buf, p, w) && HasPrefix(buf, p, v) && |w| <= |v| ==> IsPrefixOf(w, v)
  {
    assert p + |v| <= |buf| && |w| <= |v| ==> buf[p..p + |v|][..|w|] == buf[p..p + |w|];
  }

  /** Two entries of a prefix-free table that both match at `p` are the same
      entry, so the first match is the only (and hence the longest) one. */
  lemma OnlyOneMatch(buf: seq<char>, p: nat, table: seq<string>, i: nat, j: nat)
    requires PrefixFree(table) && i < |table| && j < |table|
    requires HasPrefix(buf, p, table[i]) && HasPrefix(buf, p, table[j])
    ensures i == j
  {
    PrefixOfPrefix(buf, p, table[i], table[j]);
    PrefixOfPrefix(buf, p, table[j], table[i]);
  }

  /** Where the character at `p` is not a letter no spelling of either table
      matches. */
  lemma NoTableMatchAtNonLetter(buf: seq<char>, p: nat)
    requires !IsAlpha(At(buf, p))
    ensures FirstMatch(buf, p, KeywordNames, 0) == |KeywordNames|
    ensures FirstMatch(buf, p, VarTypeNames, 0) == |VarTypeNames|
  {
    KeywordNamesWellSpelled();
    VarTypeNamesWellSpelled();
    FirstMatchSkips(buf, p, KeywordNames, 0);
    FirstMatchSkips(buf, p, VarTypeNames, 0);
    forall j | 0 <= j < |KeywordNames| ensures !HasPrefix(buf, p, KeywordNames[j]) {
      PrefixHead(buf, p, KeywordNames[j]);
    }
    forall j | 0 <= j < |VarTypeNames| ensures !HasPrefix(buf, p, VarTypeNames[j]) {
      PrefixHead(buf, p, VarTypeNames[j]);
    }
  }

  /** Where a character that is not '/', 'm' or 'l' is at `p`, neither the
      comment marker nor `mut` nor `let` matches. */
  lemma NoFixedWord(buf: seq<char>, p: nat)
    requires At(buf, p) != '/' && At(buf, p) != 'm' && At(buf, p) != 'l'
    ensures !HasPrefix(buf, p, "//") && !HasPrefix(buf, p, "mut") && !HasPrefix(buf, p, "let")
  {
    PrefixHead(buf, p, "//");
    PrefixHead(buf, p, "mut");
    PrefixHead(buf, p, "let");
  }

  /** A prefix match of a well-spelled word rules out every token that
      lex_string tests before the tables. */
  lemma WordPassesEarlierTests(buf: seq<char>, p: nat, w: string)
    requires WellSpelled(w) && HasPrefix(buf, p, w)
    ensures At(buf, p) == w[0] && At(buf, p) != NUL && Punct(At(buf, p)).None?
    ensures !HasPrefix(buf, p, "//")
    ensures !HasPrefix(buf, p, "mut") && !HasPrefix(buf, p, "let")
    ensures DigitRun(buf, p) == p && IsAlpha(At(buf, DigitRun(buf, p)))
  {
    PrefixHead(buf, p, w);
    NoFixedWord(buf, p);
  }

  /** In a prefix-free table, an entry that matches at `p` is the first match. */
  lemma FirstMatchIsOnly(buf: seq<char>, p: nat, table: seq<string>, i: nat)
    requires PrefixFree(table) && i < |table| && HasPrefix(buf, p, table[i])
    ensures FirstMatch(buf, p, table, 0) == i
  {
    FirstMatchSkips(buf, p, table, 0);
    var m := FirstMatch(buf, p, table, 0);
    OnlyOneMatch(buf, p, table, m, i);
  }

  /** A keyword spelling at the cursor lexes as that keyword, with
      `string_size` its length. */
  lemma KeywordSpellingLexes(buf: seq<char>, p: nat, k: Keyword)
    requires HasPrefix(buf, p, KeywordName(k))
    ensures Classify(buf, p) == Token(KeywordTok(k), p, |KeywordName(k)|)
  {
    var i := KeywordIndex(k);
    KeywordNamesWellSpelled();
    WordPassesEarlierTests(buf, p, KeywordNames[i]);
    KeywordNamesPrefixFree();
    FirstMatchIsOnly(buf, p, KeywordNames, i);
  }

  /** No keyword matches where a base-type spelling does. */
  lemma NoKeywordAtVarType(buf: seq<char>, p: nat, i: nat)
    requires i < |VarTypeNames| && HasPrefix(buf, p, VarTypeNames[i])
    ensures FirstMatch(buf, p, KeywordNames, 0) == |KeywordNames|
  {
    TablesDisjointPrefixes();
    FirstMatchSkips(buf, p, KeywordNames, 0);
    forall j | 0 <= j < |KeywordNames| ensures !HasPrefix(buf, p, KeywordNames[j]) {
      PrefixOfPrefix(buf, p, KeywordNames[j], VarTypeNames[i]);
      PrefixOfPrefix(buf, p, VarTypeNames[i], KeywordNames[j]);
    }
  }

  /** A base-type spelling at the cursor lexes as that base type, with
      `string_size` its length. */
  lemma VarTypeSpellingLexes(buf: seq<char>, p: nat, t: VarType)
    requires HasPrefix(buf, p, VarTypeName(t))
    ensures Classify(buf, p) == Token(VarTypeTok(t), p, |VarTypeName(t)|)
  {
    var i := VarTypeIndex(t);
    VarTypeNamesWellSpelled();
    WordPassesEarlierTests(buf, p, VarTypeNames[i]);
    NoKeywordAtVarType(buf, p, i);
    VarTypeNamesPrefixFree();
    FirstMatchIsOnly(buf, p, VarTypeNames, i);
  }

  /** `mut` and `let` are matched as prefixes: "mutable" lexes as Mut. */
  lemma MutIsAPrefixMatch(buf: seq<char>, p: nat)
    requires HasPrefix(buf, p, "mut")
    ensures Classify(buf, p) == Token(Mut, p, 3)
  {
    PrefixHead(buf, p, "mut");
  }

  /** A character that starts no token (';', a tab) lexes as an empty Number. */
  lemma StrayCharIsEmptyNumber(buf: seq<char>, p: nat)
    requires p < |buf| && (buf[p] == ';' || buf[p] == '\t')
    ensures Classify(buf, p) == Token(Number, p, 0)
  {
    NoFixedWord(buf, p);
  }

  /** A digit run followed by a letter is not a number: the tables cannot
      match at a digit, so it lexes as a name over the whole alphanumeric run. */
  lemma DigitsThenLetterIsName(buf: seq<char>, p: nat)
    requires p < |buf| && IsDigit(buf[p]) && IsAlpha(At(buf, DigitRun(buf, p)))
    ensures Classify(buf, p) == Token(Name, p, AlnumRun(buf, p) - p)
    ensures AlnumRun(buf, p) > p
  {
    var c := buf[p];
    assert At(buf, p) == c && c != NUL && IsAlnum(c);
    assert Punct(c).None?;
    NoFixedWord(buf, p);
    assert Classify(buf, p) == ClassifyWord(buf, p);
    NoTableMatchAtNonLetter(buf, p);
    assert AlnumRun(buf, p) == AlnumRun(buf, p + 1);
  }
}
