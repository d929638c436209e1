/** The text of one error report of print_error / print_expectation_error:
    line, column, message and the optional pre-formatted source line. */
module Diagnostics {
  import opened Text

  /** One report. `shown` is the pre-formatted line print_expectation_error
      passes for a zero-size token; None means the source line is shown with
      the token underlined. */
  datatype Report = Report(line: int, column: int, message: string, shown: Option<string>)

  /** What the front end writes to standard output, in order. */
  datatype Emit = Code(text: string) | Error(report: Report)

  /** The offset print_error's backward scan stops at, starting from `k`:
      the nearest '\n' at or before `k`, or the start of the buffer. */
  function Anchor(buf: seq<char>, k: nat): (a: nat)
    requires k < |buf|
    ensures a <= k && (buf[a] == '\n' || a == 0)
  {
    if buf[k] == '\n' || k == 0 then k else Anchor(buf, k - 1)
  }

  /** No '\n' lies between the anchor and `k`. */
  lemma {:induction false} AnchorSpan(buf: seq<char>, k: nat)
    requires k < |buf|
    ensures forall m :: Anchor(buf, k) < m <= k ==> buf[m] != '\n'
  {
    if !(buf[k] == '\n' || k == 0) {
      AnchorSpan(buf, k - 1);
    }
  }

  /** token_col, as computed: cursor - anchor - token size + 1. */
  function Column(buf: seq<char>, pos: nat, size: int): int
    requires 0 < pos <= |buf|
  {
    pos - Anchor(buf, pos - 1) - size + 1
  }

  /** The characters the source reads from offset `s` on, `n` of them. */
  function CharsAt(buf: seq<char>, s: nat, n: nat): (r: string)
    ensures |r| == n && forall k :: 0 <= k < n ==> r[k] == At(buf, s + k)
  {
    seq(n, k requires 0 <= k < n => At(buf, s + k))
  }

  /** What `%s` or `{}` prints of a `std::string` through `.c_str()`: its
      characters up to the first NUL. */
  function CString(s: string): (r: string)
    decreases |s|
  {
    if s == [] || s[0] == NUL then [] else [s[0]] + CString(s[1..])
  }

  /** The printed text is the part of the string before its first NUL. */
  lemma {:induction false} CStringPrefix(s: string)
    decreases |s|
    ensures var r := CString(s);
            |r| <= |s| && r == s[..|r|] &&
            (forall k :: 0 <= k < |r| ==> r[k] != NUL) &&
            (|r| == |s| || s[|r|] == NUL)
  {
    if s != [] && s[0] != NUL {
      CStringPrefix(s[1..]);
    }
  }

  /** `expected "A" or "B" ...` */
  function ExpectedText(alts: seq<string>): string
    requires |alts| > 0
  {
    "expected \"" + alts[0] + "\"" + OrTail(alts[1..])
  }

  function OrTail(alts: seq<string>): string
    decreases |alts|
  {
    if alts == [] then "" else " or \"" + alts[0] + "\"" + OrTail(alts[1..])
  }

  /** The alternatives joined by '/' (colour codes left out). */
  function SlashJoin(alts: seq<string>): string
    requires |alts| > 0
  {
    alts[0] + SlashTail(alts[1..])
  }

  function SlashTail(alts: seq<string>): string
    decreases |alts|
  {
    if alts == [] then "" else "/" + alts[0] + SlashTail(alts[1..])
  }

  /** The report print_error writes when its backward scan stops at offset
      `a` (a '\n' or the start of the buffer): token_col is counted from `a`. */
  function ReportAt(pos: nat, a: nat, line: int, size: int, msg: string, shown: Option<string>): Emit {
    Error(Report(line, pos - a - size + 1, msg, shown))
  }

  /** The report the backward scan writes at offset `k`, if any. */
  function ScanAt(buf: seq<char>, k: nat, pos: nat, line: int, size: int, msg: string,
                  shown: Option<string>): seq<Emit>
    requires k < |buf|
  {
    if buf[k] == '\n' || k == 0 then [ReportAt(pos, k, line, size, msg, shown)] else []
  }

  /** The reports of print_error's backward scan over offsets `k` down to 0:
      one at every '\n' and one more at the start of the buffer, nearest
      first. */
  function ScanReports(buf: seq<char>, k: nat, pos: nat, line: int, size: int, msg: string,
                       shown: Option<string>): (e: seq<Emit>)
    requires k < pos <= |buf|
    decreases k
    ensures |e| > 0
  {
    ScanAt(buf, k, pos, line, size, msg, shown) +
    (if k == 0 then [] else ScanReports(buf, k - 1, pos, line, size, msg, shown))
  }

  /** The reports the scan still writes once it has reached offset `k`. */
  ghost function ScanFrom(buf: seq<char>, k: nat, pos: nat, line: int, size: int, msg: string,
                          shown: Option<string>): seq<Emit>
    requires k <= pos <= |buf|
  {
    if k == 0 then [] else ScanReports(buf, k - 1, pos, line, size, msg, shown)
  }

  lemma ScanFromStep(buf: seq<char>, k: nat, pos: nat, line: int, size: int, msg: string,
                     shown: Option<string>)
    requires 0 < k <= pos <= |buf|
    ensures ScanFrom(buf, k, pos, line, size, msg, shown) ==
            ScanAt(buf, k - 1, pos, line, size, msg, shown) + ScanFrom(buf, k - 1, pos, line, size, msg, shown)
  {
  }

  /** What print_error writes for a token of `size` characters when the
      cursor is at `pos` on line `line`. At the start of the buffer the scan
      runs no iteration and nothing is written. */
  function ErrorEmits(buf: seq<char>, pos: nat, line: int, size: int, msg: string,
                      shown: Option<string>): (e: seq<Emit>)
    requires pos <= |buf|
    ensures pos > 0 <==> |e| > 0
  {
    if pos == 0 then [] else ScanReports(buf, pos - 1, pos, line, size, msg, shown)
  }

  /** The text print_expectation_error shows of the line when its own scan
      is at offset `a`: it copies `pos - a` characters from the one after
      that '\n' (or from the buffer start), so through the cursor's
      character; at the end of the buffer the copy takes in the terminator,
      which `.c_str()` cuts off again. */
  function CopiedLine(buf: seq<char>, pos: nat, a: nat): string
    requires a < pos <= |buf|
  {
    var s := if buf[a] == '\n' then a + 1 else a;
    buf[s..if s + (pos - a) <= |buf| then s + (pos - a) else |buf|]
  }

  /** The pre-formatted line: the copied line, a space and the alternatives
      joined by '/'. */
  function SuggestionLine(buf: seq<char>, pos: nat, a: nat, alts: seq<string>): string
    requires a < pos <= |buf| && |alts| > 0
  {
    CopiedLine(buf, pos, a) + " " + SlashJoin(alts)
  }

  /** The line passed to print_error: a suggestion only for a zero-size token. */
  function Suggestion(buf: seq<char>, pos: nat, a: nat, size: int, alts: seq<string>): Option<string>
    requires a < pos <= |buf| && |alts| > 0
  {
    if size == 0 then Some(SuggestionLine(buf, pos, a, alts)) else None
  }

  /** What print_expectation_error writes when its scan is at offset `k`. */
  function ExpectationAt(buf: seq<char>, k: nat, pos: nat, line: int, size: int,
                         alts: seq<string>): seq<Emit>
    requires k < pos <= |buf| && |alts| > 0
  {
    if buf[k] == '\n' || k == 0
    then ErrorEmits(buf, pos, line, size, ExpectedText(alts), Suggestion(buf, pos, k, size, alts))
    else []
  }

  /** The reports of print_expectation_error's scan over offsets `k` down to
      0: at every '\n' and at the start it calls print_error, which scans
      again. */
  function ExpectationScan(buf: seq<char>, k: nat, pos: nat, line: int, size: int,
                           alts: seq<string>): (e: seq<Emit>)
    requires k < pos <= |buf| && |alts| > 0
    decreases k
    ensures |e| > 0
  {
    ExpectationAt(buf, k, pos, line, size, alts) +
    (if k == 0 then [] else ExpectationScan(buf, k - 1, pos, line, size, alts))
  }

  ghost function ExpectationFrom(buf: seq<char>, k: nat, pos: nat, line: int, size: int,
                                 alts: seq<string>): seq<Emit>
    requires k <= pos <= |buf| && |alts| > 0
  {
    if k == 0 then [] else ExpectationScan(buf, k - 1, pos, line, size, alts)
  }

  lemma ExpectationFromStep(buf: seq<char>, k: nat, pos: nat, line: int, size: int, alts: seq<string>)
    requires 0 < k <= pos <= |buf| && |alts| > 0
    ensures ExpectationFrom(buf, k, pos, line, size, alts) ==
            ExpectationAt(buf, k - 1, pos, line, size, alts) + ExpectationFrom(buf, k - 1, pos, line, size, alts)
  {
  }

  /** What print_expectation_error writes for a token of `size` characters. */
  function ExpectationEmits(buf: seq<char>, pos: nat, line: int, size: int,
                            alts: seq<string>): (e: seq<Emit>)
    requires pos <= |buf| && |alts| > 0
    ensures pos > 0 <==> |e| > 0
  {
    if pos == 0 then [] else ExpectationScan(buf, pos - 1, pos, line, size, alts)
  }

  /** print_error: walks back from the cursor and writes a report at every
      '\n' it meets and at the start of the buffer. */
  method ReportError(buf: seq<char>, pos: nat, line: int, size: int, msg: string, shown: Option<string>)
    returns (e: seq<Emit>)
    requires pos <= |buf|
    ensures e == ErrorEmits(buf, pos, line, size, msg, shown)
  {
    e := [];
    var k: nat := pos;
    while k > 0
      invariant k <= pos
      invariant e + ScanFrom(buf, k, pos, line, size, msg, shown) == ErrorEmits(buf, pos, line, size, msg, shown)
    {
      var here := if buf[k - 1] == '\n' || k - 1 == 0 then [ReportAt(pos, k - 1, line, size, msg, shown)] else [];
      assert (e + here) + ScanFrom(buf, k - 1, pos, line, size, msg, shown) ==
             ErrorEmits(buf, pos, line, size, msg, shown) by {
        ScanFromStep(buf, k, pos, line, size, msg, shown);
        Regroup(e, here, ScanFrom(buf, k - 1, pos, line, size, msg, shown));
      }
      k := k - 1;
      e := e + here;
    }
    assert e + [] == e;
  }

  lemma Regroup<T>(a: seq<T>, b: seq<T>, c: seq<T>)
    ensures a + (b + c) == (a + b) + c
  {
  }

  /** The message loop of print_expectation_error. */
  method ExpectedMessage(alts: seq<string>) returns (msg: string)
    requires |alts| > 0
    ensures msg == ExpectedText(alts)
  {
    msg := "expected \"" + alts[0] + "\"";
    var i := 1;
    while i < |alts|
      invariant 1 <= i <= |alts|
      invariant msg + OrTail(alts[i..]) == ExpectedText(alts)
    {
      assert alts[i..][1..] == alts[i + 1..];
      msg := msg + " or \"" + alts[i] + "\"";
      i := i + 1;
    }
    assert alts[i..] == [] && OrTail(alts[i..]) == "";
    assert msg + "" == msg;
  }

  /** The loop of print_expectation_error that joins the alternatives with
      '/' (colour codes left out). */
  method SlashJoined(alts: seq<string>) returns (joined: string)
    requires |alts| > 0
    ensures joined == SlashJoin(alts)
  {
    joined := alts[0];
    var j := 1;
    while j < |alts|
      invariant 1 <= j <= |alts|
      invariant joined + SlashTail(alts[j..]) == SlashJoin(alts)
    {
      assert alts[j..][1..] == alts[j + 1..];
      joined := joined + "/" + alts[j];
      j := j + 1;
    }
    assert alts[j..] == [] && SlashTail(alts[j..]) == "";
    assert joined + "" == joined;
  }

  /** print_expectation_error: walks back from the cursor and, at every '\n'
      and at the start of the buffer, builds the message and (for a
      zero-size token) the suggestion line, and calls print_error. */
  method ExpectationError(buf: seq<char>, pos: nat, line: int, size: int, alts: seq<string>)
    returns (e: seq<Emit>)
    requires pos <= |buf| && |alts| > 0
    ensures e == ExpectationEmits(buf, pos, line, size, alts)
  {
    e := [];
    var k: nat := pos;
    while k > 0
      invariant k <= pos
      invariant e + ExpectationFrom(buf, k, pos, line, size, alts) == ExpectationEmits(buf, pos, line, size, alts)
    {
      var here := ExpectationStop(buf, k - 1, pos, line, size, alts);
      assert (e + here) + ExpectationFrom(buf, k - 1, pos, line, size, alts) ==
             ExpectationEmits(buf, pos, line, size, alts) by {
        ExpectationFromStep(buf, k, pos, line, size, alts);
        Regroup(e, here, ExpectationFrom(buf, k - 1, pos, line, size, alts));
      }
      k := k - 1;
      e := e + here;
    }
    assert e + [] == e;
  }

  /** One iteration of print_expectation_error's scan at offset `k`. */
  method ExpectationStop(buf: seq<char>, k: nat, pos: nat, line: int, size: int, alts: seq<string>)
    returns (here: seq<Emit>)
    requires k < pos <= |buf| && |alts| > 0
    ensures here == ExpectationAt(buf, k, pos, line, size, alts)
  {
    here := [];
    if buf[k] == '\n' || k == 0 {
      var msg := ExpectedMessage(alts);
      var shown: Option<string> := None;
      if size == 0 {
        var joined := SlashJoined(alts);
        shown := Some(CopiedLine(buf, pos, k) + " " + joined);
      }
      here := ReportError(buf, pos, line, size, msg, shown);
    }
  }

  // ---- properties of the report scans ----

  /** Every report of one print_error call carries its line, message and
      shown line. */
  lemma {:induction false} ScanShape(buf: seq<char>, k: nat, pos: nat, line: int, size: int, msg: string,
                                     shown: Option<string>)
    requires k < pos <= |buf|
    ensures ReportsWith(ScanReports(buf, k, pos, line, size, msg, shown), line, msg, shown)
    decreases k
  {
    var here := ScanAt(buf, k, pos, line, size, msg, shown);
    assert ReportsWith(here, line, msg, shown);
    if k > 0 {
      ScanShape(buf, k - 1, pos, line, size, msg, shown);
      var rest := ScanReports(buf, k - 1, pos, line, size, msg, shown);
      assert ScanReports(buf, k, pos, line, size, msg, shown) == here + rest;
      ReportsWithAppend(here, rest, line, msg, shown);
    } else {
      assert ScanReports(buf, k, pos, line, size, msg, shown) == here + [];
    }
  }

  /** The last report of the scan counts the column from the start of the
      buffer. */
  lemma {:induction false} ScanLast(buf: seq<char>, k: nat, pos: nat, line: int, size: int, msg: string,
                                    shown: Option<string>)
    requires k < pos <= |buf|
    ensures var e := ScanReports(buf, k, pos, line, size, msg, shown);
            e[|e| - 1] == ReportAt(pos, 0, line, size, msg, shown)
    decreases k
  {
    var here := ScanAt(buf, k, pos, line, size, msg, shown);
    if k > 0 {
      ScanLast(buf, k - 1, pos, line, size, msg, shown);
      var rest := ScanReports(buf, k - 1, pos, line, size, msg, shown);
      assert ScanReports(buf, k, pos, line, size, msg, shown) == here + rest;
      assert (here + rest)[|here + rest| - 1] == rest[|rest| - 1];
    } else {
      assert ScanReports(buf, k, pos, line, size, msg, shown) == here;
    }
  }

  /** Every element of `e` is a report with this line, message and shown line. */
  predicate ReportsWith(e: seq<Emit>, line: int, msg: string, shown: Option<string>) {
    forall j :: 0 <= j < |e| ==>
      e[j].Error? && e[j].report.line == line && e[j].report.message == msg && e[j].report.shown == shown
  }

  lemma ReportsWithAppend(a: seq<Emit>, b: seq<Emit>, line: int, msg: string, shown: Option<string>)
    requires ReportsWith(a, line, msg, shown) && ReportsWith(b, line, msg, shown)
    ensures ReportsWith(a + b, line, msg, shown)
  {
    forall j | 0 <= j < |a + b|
      ensures (a + b)[j].Error? && (a + b)[j].report.line == line && (a + b)[j].report.message == msg &&
              (a + b)[j].report.shown == shown
    {
      if j >= |a| {
        assert (a + b)[j] == b[j - |a|];
      }
    }
  }

  /** print_error writes only reports, all with the given line, message and
      shown line; the first has the column of the token on its own line. */
  lemma ErrorEmitsShape(buf: seq<char>, pos: nat, line: int, size: int, msg: string, shown: Option<string>)
    requires pos <= |buf|
    ensures var e := ErrorEmits(buf, pos, line, size, msg, shown);
            ReportsWith(e, line, msg, shown) &&
            (pos > 0 ==> e[0] == Error(Report(line, Column(buf, pos, size), msg, shown)))
  {
    if pos > 0 {
      ErrorEmitsScan(buf, pos, line, size, msg, shown);
      ScanShape(buf, pos - 1, pos, line, size, msg, shown);
      ScanFirst(buf, pos - 1, pos, line, size, msg, shown);
    }
  }

  /** The last report of print_error counts the column from the start of the
      buffer. */
  lemma {:induction false} ErrorEmitsLast(buf: seq<char>, pos: nat, line: int, size: int, msg: string, shown: Option<string>)
    requires 0 < pos <= |buf|
    ensures var e := ErrorEmits(buf, pos, line, size, msg, shown);
            e[|e| - 1] == Error(Report(line, pos - size + 1, msg, shown))
  {
    var e := ErrorEmits(buf, pos, line, size, msg, shown);
    assert e == ScanReports(buf, pos - 1, pos, line, size, msg, shown) by {
      ErrorEmitsScan(buf, pos, line, size, msg, shown);
    }
    ScanLast(buf, pos - 1, pos, line, size, msg, shown);
  }

  lemma ErrorEmitsScan(buf: seq<char>, pos: nat, line: int, size: int, msg: string, shown: Option<string>)
    requires 0 < pos <= |buf|
    ensures ErrorEmits(buf, pos, line, size, msg, shown) == ScanReports(buf, pos - 1, pos, line, size, msg, shown)
  {
  }

  /** The first report print_error writes. */
  lemma ErrorEmitsFirst(buf: seq<char>, pos: nat, line: int, size: int, msg: string, shown: Option<string>)
    requires 0 < pos <= |buf|
    ensures var e := ErrorEmits(buf, pos, line, size, msg, shown);
            |e| > 0 && e[0] == Error(Report(line, Column(buf, pos, size), msg, shown))
  {
    ScanFirst(buf, pos - 1, pos, line, size, msg, shown);
  }

  lemma {:induction false} ScanFirst(buf: seq<char>, k: nat, pos: nat, line: int, size: int, msg: string,
                                     shown: Option<string>)
    requires k < pos <= |buf|
    ensures ScanReports(buf, k, pos, line, size, msg, shown)[0] == ReportAt(pos, Anchor(buf, k), line, size, msg, shown)
    decreases k
  {
    if !(buf[k] == '\n' || k == 0) {
      ScanFirst(buf, k - 1, pos, line, size, msg, shown);
      assert ScanReports(buf, k, pos, line, size, msg, shown) == [] + ScanReports(buf, k - 1, pos, line, size, msg, shown);
    }
  }

  lemma {:induction false} ScanCount(buf: seq<char>, k: nat, pos: nat, line: int, size: int, msg: string,
                                     shown: Option<string>)
    requires k < pos <= |buf|
    ensures |ScanReports(buf, k, pos, line, size, msg, shown)| == Count('\n', buf[1..k + 1]) + 1
    decreases k
  {
    if k > 0 {
      ScanCount(buf, k - 1, pos, line, size, msg, shown);
      LinesSnoc(buf, k);
    }
  }

  /** print_error writes one report per '\n' before the cursor (a '\n' in
      the very first character excepted) and one more for the start of the
      buffer. */
  lemma ErrorEmitsCount(buf: seq<char>, pos: nat, line: int, size: int, msg: string, shown: Option<string>)
    requires 0 < pos <= |buf|
    ensures |ErrorEmits(buf, pos, line, size, msg, shown)| == Count('\n', buf[1..pos]) + 1
  {
    ScanCount(buf, pos - 1, pos, line, size, msg, shown);
  }

  /** Every element of `e` is a report with this line and message. */
  predicate AllReports(e: seq<Emit>, line: int, msg: string) {
    forall j :: 0 <= j < |e| ==> e[j].Error? && e[j].report.line == line && e[j].report.message == msg
  }

  lemma AllReportsAppend(a: seq<Emit>, b: seq<Emit>, line: int, msg: string)
    requires AllReports(a, line, msg) && AllReports(b, line, msg)
    ensures AllReports(a + b, line, msg)
  {
    forall j | 0 <= j < |a + b|
      ensures (a + b)[j].Error? && (a + b)[j].report.line == line && (a + b)[j].report.message == msg
    {
      if j >= |a| {
        assert (a + b)[j] == b[j - |a|];
      }
    }
  }

  lemma {:induction false} ExpectationScanShape(buf: seq<char>, k: nat, pos: nat, line: int, size: int,
                                                alts: seq<string>)
    requires k < pos <= |buf| && |alts| > 0
    ensures AllReports(ExpectationScan(buf, k, pos, line, size, alts), line, ExpectedText(alts))
    decreases k
  {
    var here := ExpectationAt(buf, k, pos, line, size, alts);
    if buf[k] == '\n' || k == 0 {
      ErrorEmitsShape(buf, pos, line, size, ExpectedText(alts), Suggestion(buf, pos, k, size, alts));
    }
    assert AllReports(here, line, ExpectedText(alts));
    if k > 0 {
      ExpectationScanShape(buf, k - 1, pos, line, size, alts);
      AllReportsAppend(here, ExpectationScan(buf, k - 1, pos, line, size, alts), line, ExpectedText(alts));
    } else {
      assert ExpectationScan(buf, k, pos, line, size, alts) == here + [];
    }
  }

  /** print_expectation_error writes only reports, all with the given line
      and the `expected ...` message. Its first report is the one a single
      pass over the cursor's own line gives: the token's column, with the
      suggestion for that line when the token has size 0. */
  lemma ExpectationEmitsShape(buf: seq<char>, pos: nat, line: int, size: int, alts: seq<string>)
    requires pos <= |buf| && |alts| > 0
    ensures var e := ExpectationEmits(buf, pos, line, size, alts);
            (forall j :: 0 <= j < |e| ==>
               e[j].Error? && e[j].report.line == line && e[j].report.message == ExpectedText(alts)) &&
            (pos > 0 ==> e[0] == Error(Report(line, Column(buf, pos, size), ExpectedText(alts),
                                              Suggestion(buf, pos, Anchor(buf, pos - 1), size, alts))))
  {
    if pos > 0 {
      ExpectationScanShape(buf, pos - 1, pos, line, size, alts);
      ExpectationFirst(buf, pos - 1, pos, line, size, alts);
    }
  }

  lemma {:induction false} ExpectationFirst(buf: seq<char>, k: nat, pos: nat, line: int, size: int,
                                            alts: seq<string>)
    requires k < pos <= |buf| && |alts| > 0
    ensures ExpectationScan(buf, k, pos, line, size, alts)[0] ==
            Error(Report(line, Column(buf, pos, size), ExpectedText(alts), Suggestion(buf, pos, Anchor(buf, k), size, alts)))
    decreases k
  {
    var here := ExpectationAt(buf, k, pos, line, size, alts);
    if buf[k] == '\n' || k == 0 {
      ErrorEmitsFirst(buf, pos, line, size, ExpectedText(alts), Suggestion(buf, pos, k, size, alts));
    } else {
      ExpectationFirst(buf, k - 1, pos, line, size, alts);
      assert ExpectationScan(buf, k, pos, line, size, alts) == [] + ExpectationScan(buf, k - 1, pos, line, size, alts);
    }
  }

  lemma {:induction false} ExpectationScanCount(buf: seq<char>, k: nat, pos: nat, line: int, size: int,
                                                alts: seq<string>)
    requires k < pos <= |buf| && |alts| > 0
    ensures |ExpectationScan(buf, k, pos, line, size, alts)| ==
            (Count('\n', buf[1..k + 1]) + 1) * (Count('\n', buf[1..pos]) + 1)
    decreases k
  {
    if k > 0 {
      ExpectationScanCount(buf, k - 1, pos, line, size, alts);
      ExpectationCountStep(buf, k, pos, line, size, alts);
    } else {
      ExpectationAtCount(buf, k, pos, line, size, alts);
      assert buf[1..1] == [];
    }
  }

  /** One step of ExpectationScanCount: the stop at `k` adds one full
      print_error when `buf[k]` is a '\n'. */
  lemma ExpectationCountStep(buf: seq<char>, k: nat, pos: nat, line: int, size: int, alts: seq<string>)
    requires 0 < k < pos <= |buf| && |alts| > 0
    requires |ExpectationScan(buf, k - 1, pos, line, size, alts)| ==
             (Count('\n', buf[1..k]) + 1) * (Count('\n', buf[1..pos]) + 1)
    ensures |ExpectationScan(buf, k, pos, line, size, alts)| ==
            (Count('\n', buf[1..k + 1]) + 1) * (Count('\n', buf[1..pos]) + 1)
  {
    var n := Count('\n', buf[1..pos]) + 1;
    var here := ExpectationAt(buf, k, pos, line, size, alts);
    var rest := ExpectationScan(buf, k - 1, pos, line, size, alts);
    ExpectationAtCount(buf, k, pos, line, size, alts);
    assert |here| == if buf[k] == '\n' then n else 0;
    LinesSnoc(buf, k);
    assert |ExpectationScan(buf, k, pos, line, size, alts)| == |here| + |rest|;
    MulStep(|here|, |rest|, Count('\n', buf[1..k]), Count('\n', buf[1..k + 1]), n, buf[k] == '\n');
  }

  /** A stop of print_expectation_error's scan writes one full print_error. */
  lemma ExpectationAtCount(buf: seq<char>, k: nat, pos: nat, line: int, size: int, alts: seq<string>)
    requires k < pos <= |buf| && |alts| > 0
    ensures |ExpectationAt(buf, k, pos, line, size, alts)| ==
            if buf[k] == '\n' || k == 0 then Count('\n', buf[1..pos]) + 1 else 0
  {
    if buf[k] == '\n' || k == 0 {
      ErrorEmitsCount(buf, pos, line, size, ExpectedText(alts), Suggestion(buf, pos, k, size, alts));
    }
  }

  lemma LinesSnoc(buf: seq<char>, k: nat)
    requires 0 < k < |buf|
    ensures Count('\n', buf[1..k + 1]) == Count('\n', buf[1..k]) + (if buf[k] == '\n' then 1 else 0)
  {
    assert buf[1..k + 1] == buf[1..k] + [buf[k]];
    CountAppend('\n', buf[1..k], [buf[k]]);
    assert [buf[k]][1..] == [];
  }

  lemma MulStep(h: nat, r: nat, c: nat, c': nat, n: nat, newline: bool)
    requires r == (c + 1) * n && h == (if newline then n else 0) && c' == c + (if newline then 1 else 0)
    ensures h + r == (c' + 1) * n
  {
    if newline {
      assert (c + 2) * n == n + (c + 1) * n;
    }
  }

  /** print_expectation_error calls print_error once per place its own scan
      stops, and each call writes as many reports again: with L lines up to
      the cursor it writes L * L reports. */
  lemma ExpectationEmitsCount(buf: seq<char>, pos: nat, line: int, size: int, alts: seq<string>)
    requires 0 < pos <= |buf| && |alts| > 0
    ensures var n := Count('\n', buf[1..pos]) + 1;
            |ExpectationEmits(buf, pos, line, size, alts)| == n * n
  {
    ExpectationScanCount(buf, pos - 1, pos, line, size, alts);
  }

  /** With no '\n' before the cursor, print_error writes exactly one report,
      at the token's 1-based column. */
  lemma OneLineReport(buf: seq<char>, pos: nat, line: int, size: int, msg: string, shown: Option<string>)
    requires 0 < pos <= |buf| && forall m :: 0 <= m < pos ==> buf[m] != '\n'
    ensures ErrorEmits(buf, pos, line, size, msg, shown) == [Error(Report(line, pos - size + 1, msg, shown))]
  {
    var e := ErrorEmits(buf, pos, line, size, msg, shown);
    assert forall m :: 0 <= m < |buf[1..pos]| ==> buf[1..pos][m] != '\n';
    CountAbsent('\n', buf[1..pos]);
    ErrorEmitsCount(buf, pos, line, size, msg, shown);
    ErrorEmitsLast(buf, pos, line, size, msg, shown);
    assert e == [e[0]];
  }

  /** With no '\n' before the cursor, print_expectation_error writes exactly
      one report; the suggestion (for a zero-size token) shows the line from
      its start. */
  lemma OneLineExpectation(buf: seq<char>, pos: nat, line: int, size: int, alts: seq<string>)
    requires 0 < pos <= |buf| && |alts| > 0 && forall m :: 0 <= m < pos ==> buf[m] != '\n'
    ensures ExpectationEmits(buf, pos, line, size, alts) ==
            [Error(Report(line, pos - size + 1, ExpectedText(alts), Suggestion(buf, pos, 0, size, alts)))]
  {
    var e := ExpectationEmits(buf, pos, line, size, alts);
    assert forall m :: 0 <= m < |buf[1..pos]| ==> buf[1..pos][m] != '\n';
    CountAbsent('\n', buf[1..pos]);
    ExpectationEmitsCount(buf, pos, line, size, alts);
    ExpectationEmitsShape(buf, pos, line, size, alts);
    ColumnOnFirstLine(buf, pos, size);
    assert Anchor(buf, pos - 1) == 0;
    assert e == [e[0]];
  }

  /** On the second line of "a\nb" print_error reports twice: once with the
      column counted from the '\n', once counted from the buffer start. */
  lemma SecondLineReportsTwice()
    ensures ErrorEmits("a\nb", 3, 2, 1, "m", None) ==
            [Error(Report(2, 2, "m", None)), Error(Report(2, 3, "m", None))]
  {
    var buf := "a\nb";
    assert ScanReports(buf, 0, 3, 2, 1, "m", None) == [Error(Report(2, 3, "m", None))];
    assert ScanReports(buf, 1, 3, 2, 1, "m", None) == [Error(Report(2, 2, "m", None))] + [Error(Report(2, 3, "m", None))];
    assert ScanReports(buf, 2, 3, 2, 1, "m", None) == [] + ScanReports(buf, 1, 3, 2, 1, "m", None);
  }

  /** ... and print_expectation_error four times. */
  lemma SecondLineExpectsFourTimes()
    ensures |ExpectationEmits("a\nb", 3, 2, 1, ["x"])| == 4
  {
    var buf := "a\nb";
    ExpectationEmitsCount(buf, 3, 2, 1, ["x"]);
    assert buf[1..3] == "\nb";
    assert Count('\n', "b") == 0;
    assert Count('\n', "\nb") == 1;
  }

  /** A name missing at the end of "i32 x = " is reported once, at column 9,
      with the line and the alternative shown after it. */
  lemma MissingNameReport()
    ensures ExpectationEmits("i32 x = ", 8, 1, 0, ["name"]) ==
            [Error(Report(1, 9, "expected \"name\"", Some("i32 x =  name")))]
  {
    var buf := "i32 x = ";
    OneLineExpectation(buf, 8, 1, 0, ["name"]);
    assert ExpectedText(["name"]) == "expected \"name\"" by {
      assert ["name"][1..] == [];
    }
    assert SuggestionLine(buf, 8, 0, ["name"]) == "i32 x =  name" by {
      assert CopiedLine(buf, 8, 0) == buf[0..8] == buf;
      assert ["name"][1..] == [];
      assert SlashJoin(["name"]) == "name";
    }
  }

  // ---- properties of the report text ----

  /** On the first line the column is the 1-based index of the token's first
      character. */
  lemma ColumnOnFirstLine(buf: seq<char>, pos: nat, size: int)
    requires 0 < pos <= |buf|
    requires forall m :: 0 <= m < pos ==> buf[m] != '\n'
    ensures Column(buf, pos, size) == (pos - size) + 1
  {
    assert Anchor(buf, pos - 1) == 0;
  }

  /** After a '\n' at offset `a` (the last one before the cursor) the column is
      counted from that '\n' itself, so the first character of the line is
      column 2. */
  lemma ColumnAfterNewline(buf: seq<char>, pos: nat, size: int, a: nat)
    requires a < pos <= |buf| && buf[a] == '\n'
    requires forall m :: a < m < pos ==> buf[m] != '\n'
    ensures Column(buf, pos, size) == (pos - size) - (a + 1) + 2
  {
    var b := Anchor(buf, pos - 1);
    AnchorSpan(buf, pos - 1);
    assert b == a;
  }

  /** A zero-size token at the end of "i32 x = " is reported at column 9,
      just after the last character. */
  lemma MissingNameColumn()
    ensures Column("i32 x = ", 8, 0) == 9
  {
    ColumnOnFirstLine("i32 x = ", 8, 0);
  }

  lemma {:induction false} OrTailQuotes(alts: seq<string>)
    requires forall k :: 0 <= k < |alts| ==> Count('"', alts[k]) == 0
    ensures Count('"', OrTail(alts)) == 2 * |alts|
    decreases |alts|
  {
    if alts != [] {
      OrTailQuotes(alts[1..]);
      CountAppend('"', " or \"" + alts[0] + "\"", OrTail(alts[1..]));
      CountAppend('"', " or \"" + alts[0], "\"");
      CountAppend('"', " or \"", alts[0]);
      assert Count('"', " or \"") == 1;
    }
  }

  /** Each alternative is quoted once: the message holds two '"' per
      alternative when no alternative holds one. */
  lemma ExpectedTextQuotes(alts: seq<string>)
    requires |alts| > 0
    requires forall k :: 0 <= k < |alts| ==> Count('"', alts[k]) == 0
    ensures Count('"', ExpectedText(alts)) == 2 * |alts|
  {
    OrTailQuotes(alts[1..]);
    CountAppend('"', "expected \"" + alts[0] + "\"", OrTail(alts[1..]));
    CountAppend('"', "expected \"" + alts[0], "\"");
    CountAppend('"', "expected \"", alts[0]);
    assert Count('"', "expected \"") == 1;
  }

  lemma {:induction false} SlashTailSlashes(alts: seq<string>)
    requires forall k :: 0 <= k < |alts| ==> Count('/', alts[k]) == 0
    ensures Count('/', SlashTail(alts)) == |alts|
    decreases |alts|
  {
    if alts != [] {
      SlashTailSlashes(alts[1..]);
      CountAppend('/', "/" + alts[0], SlashTail(alts[1..]));
      CountAppend('/', "/", alts[0]);
    }
  }

  /** The suggestion separates the alternatives with exactly |alts| - 1 '/'
      characters when no alternative holds one. */
  lemma SlashJoinSeparators(alts: seq<string>)
    requires |alts| > 0
    requires forall k :: 0 <= k < |alts| ==> Count('/', alts[k]) == 0
    ensures Count('/', SlashJoin(alts)) == |alts| - 1
  {
    SlashTailSlashes(alts[1..]);
    CountAppend('/', alts[0], SlashTail(alts[1..]));
  }

  /** The copied line is what `.c_str()` prints of the `pos - a`
      characters the source copies (NUL past the end included): for a buffer
      without NUL, the copy up to its first NUL. */
  lemma CopiedLineIsCString(buf: seq<char>, pos: nat, a: nat)
    requires a < pos <= |buf|
    requires forall m :: 0 <= m < |buf| ==> buf[m] != NUL
    ensures CopiedLine(buf, pos, a) == CString(CharsAt(buf, if buf[a] == '\n' then a + 1 else a, pos - a))
  {
    var s := if buf[a] == '\n' then a + 1 else a;
    var t := if s + (pos - a) <= |buf| then s + (pos - a) else |buf|;
    var copied := CharsAt(buf, s, pos - a);
    var r := CString(copied);
    CStringPrefix(copied);
    assert copied[..t - s] == buf[s..t];
    assert forall j :: 0 <= j < t - s ==> copied[j] == buf[s + j] != NUL;
    assert t < s + (pos - a) ==> copied[t - s] == At(buf, t) == NUL;
    assert |r| == t - s;
  }

  /** The zero-size token at the end of "{\n" is shown as a space and the
      alternative: the terminator the copy reads at the cursor is not
      printed. */
  lemma EndOfInputSuggestion()
    ensures Suggestion("{\n", 2, 1, 0, ["}"]) == Some(" }")
  {
    var buf := "{\n";
    assert buf[1] == '\n' && CopiedLine(buf, 2, 1) == buf[2..2] == "";
    assert ["}"][1..] == [];
    assert SlashJoin(["}"]) == "}";
    assert SuggestionLine(buf, 2, 1, ["}"]) == "" + " " + "}";
    assert "" + " " + "}" == " }";
  }

  /** The parameter-list message of lex_function. */
  lemma CloseOrCommaMessage()
    ensures ExpectedText([")", ","]) == "expected \")\" or \",\""
    ensures SlashJoin([")", ","]) == ")/,"
  {
    assert [")", ","][1..] == [","];
    assert [")", ","][1..][1..] == [];
  }
}
