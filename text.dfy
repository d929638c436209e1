/** Characters, NUL-terminated buffer access and the read-only scans of the
    transpiler front end (buffer_string_ptr, next_line, strncmp). */
module Text {

  datatype Option<T> = None | Some(value: T)

  /** Why a parser gave up: a reported syntax error, a loop of the source
      that would repeat forever from the state it reached, or an expression
      the source goes on to render although its behaviour is then undefined
      (an uninitialised node, a span of negative length). */
  datatype ParseError = Syntax(message: string) | Diverges | Undefined

  datatype Result<T> = Ok(value: T) | Err(error: ParseError)

  /** The terminator the source relies on: every buffer ends with NUL. */
  const NUL: char := '\0'

  predicate IsDigit(c: char) { '0' <= c <= '9' }
  predicate IsUpper(c: char) { 'A' <= c <= 'Z' }
  predicate IsLower(c: char) { 'a' <= c <= 'z' }
  predicate IsAlpha(c: char) { IsUpper(c) || IsLower(c) }
  predicate IsAlnum(c: char) { IsDigit(c) || IsAlpha(c) }

  /** The character the source reads at offset `i`: past the end of the
      buffer it reads the NUL terminator. */
  function At(buf: seq<char>, i: nat): char {
    if i < |buf| then buf[i] else NUL
  }

  /** `strncmp(buf + p, w, |w|) == 0` for a word `w` that holds no NUL. */
  predicate HasPrefix(buf: seq<char>, p: nat, w: string) {
    p + |w| <= |buf| && buf[p..p + |w|] == w
  }

  /** `strncmp(buf + i, buf + j, n) == 0`: the first `n` characters agree,
      where the comparison stops early at a common NUL. */
  predicate StrnEq(buf: seq<char>, i: nat, j: nat, n: nat)
    decreases n
  {
    n == 0 ||
    (At(buf, i) == At(buf, j) && (At(buf, i) == NUL || StrnEq(buf, i + 1, j + 1, n - 1)))
  }

  /** The character test of buffer_string_ptr as written: `c >= '0' && c >= '9'`
      (so only `'9'` among the digits), or a letter. `char` is signed in the
      source, so bytes from 0x80 on compare as negative and fail `>= '9'`. */
  predicate NameChar(c: char) {
    c != NUL && (('0' <= c && '9' <= c && c < '\U{80}') || IsUpper(c) || IsLower(c))
  }

  /** buffer_string_ptr: the length of the run of NameChar characters at `p`. */
  function NameLength(buf: seq<char>, p: nat): (n: nat)
    decreases |buf| - p
    ensures p + n <= |buf| || (p >= |buf| && n == 0)
    ensures forall k :: p <= k < p + n ==> NameChar(At(buf, k))
    ensures !NameChar(At(buf, p + n))
  {
    if p < |buf| && NameChar(buf[p]) then 1 + NameLength(buf, p + 1) else 0
  }

  /** next_line: the offset just after the next '\n' at or after `p` or, when
      the terminator comes first, the offset of the terminator. */
  function NextLine(buf: seq<char>, p: nat): (q: nat)
    decreases |buf| - p
    ensures p <= |buf| ==> p <= q <= |buf|
    ensures p > |buf| ==> q == p
    ensures forall k :: p <= k < q - 1 ==> At(buf, k) != '\n' && At(buf, k) != NUL
    ensures (q > p && At(buf, q - 1) == '\n') ||
            (At(buf, q) == NUL && forall k :: p <= k < q ==> At(buf, k) != '\n')
  {
    if p >= |buf| || buf[p] == NUL then p
    else if buf[p] == '\n' then p + 1
    else NextLine(buf, p + 1)
  }

  /** The number of occurrences of `c` in `s`. */
  function Count(c: char, s: string): nat
    decreases |s|
  {
    if s == [] then 0 else (if s[0] == c then 1 else 0) + Count(c, s[1..])
  }

  lemma {:induction false} CountAppend(c: char, s: string, t: string)
    ensures Count(c, s + t) == Count(c, s) + Count(c, t)
  {
    if s == [] {
      assert s + t == t;
    } else {
      assert (s + t)[1..] == s[1..] + t;
      CountAppend(c, s[1..], t);
    }
  }

  lemma {:induction false} CountAbsent(c: char, s: string)
    requires forall k :: 0 <= k < |s| ==> s[k] != c
    ensures Count(c, s) == 0
    decreases |s|
  {
    if s != [] {
      CountAbsent(c, s[1..]);
    }
  }
}
