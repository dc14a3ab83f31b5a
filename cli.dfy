/**
 * The text extractors of vpp/cli.go: the version and PID of `show version verbose`,
 * the uptime of `show clock` and the lines of `show log`.
 *
 * The three regular expressions of the source are hand-written here as anchored
 * matchers (`MatchAt`) driven by a leftmost scanner (`FindSubmatch`), which is what
 * Go's `FindStringSubmatch` does for them: the leftmost position wins and every
 * `+` is greedy. The command itself is an input of type `Result<string, Error>`.
 */
module Cli {
  import opened Wrappers

  /** Go's (RE2's) `\s`: space, tab, newline, form feed and carriage return (not vertical tab). */
  predicate IsSpace(c: char) {
    c == ' ' || c == '\t' || c == '\n' || c as int == 0x0C || c == '\r'
  }

  /** The character classes captured by the three patterns: `\S`, `[0-9]` and `[0-9\.]`. */
  datatype CharClass = NonSpace | Digit | DigitOrDot

  predicate InClass(c: char, k: CharClass) {
    match k
    case NonSpace => !IsSpace(c)
    case Digit => '0' <= c <= '9'
    case DigitOrDot => '0' <= c <= '9' || c == '.'
  }

  predicate AllSpace(s: string) {
    forall i :: 0 <= i < |s| ==> IsSpace(s[i])
  }

  predicate AllIn(s: string, k: CharClass) {
    forall i :: 0 <= i < |s| ==> InClass(s[i], k)
  }

  /** Length of the longest prefix of `s` made of spaces: what a greedy `\s+` consumes. */
  function SpaceRun(s: string): (n: nat)
    ensures n <= |s| && AllSpace(s[..n])
    ensures n < |s| ==> !IsSpace(s[n])
  {
    if s == [] || !IsSpace(s[0]) then 0
    else
      var n := 1 + SpaceRun(s[1..]);
      assert s[..n] == [s[0]] + s[1..][..n - 1];
      n
  }

  /** Length of the longest prefix of `s` inside class `k`: what a greedy `k+` consumes. */
  function ClassRun(s: string, k: CharClass): (n: nat)
    ensures n <= |s| && AllIn(s[..n], k)
    ensures n < |s| ==> !InClass(s[n], k)
  {
    if s == [] || !InClass(s[0], k) then 0
    else
      var n := 1 + ClassRun(s[1..], k);
      assert s[..n] == [s[0]] + s[1..][..n - 1];
      n
  }

  /** A maximal run is the only run with that shape. */
  lemma {:induction false} SpaceRunUnique(s: string, w: nat)
    requires w <= |s| && AllSpace(s[..w]) && (w < |s| ==> !IsSpace(s[w]))
    ensures SpaceRun(s) == w
  {
    if w > 0 {
      assert IsSpace(s[..w][0]);
      assert s[1..][..w - 1] == s[..w][1..];
      SpaceRunUnique(s[1..], w - 1);
    }
  }

  lemma {:induction false} ClassRunUnique(s: string, k: CharClass, w: nat)
    requires w <= |s| && AllIn(s[..w], k) && (w < |s| ==> !InClass(s[w], k))
    ensures ClassRun(s, k) == w
  {
    if w > 0 {
      assert InClass(s[..w][0], k);
      assert s[1..][..w - 1] == s[..w][1..];
      ClassRunUnique(s[1..], k, w - 1);
    }
  }

  /** No captured character is a space, so a greedy `\s+` stops right where a capture starts. */
  lemma ClassExcludesSpace(c: char, k: CharClass)
    requires InClass(c, k)
    ensures !IsSpace(c)
  {
  }

  /** `s` reads `lit` and then `w` spaces, at least one: a match of `lit\s+`. */
  ghost predicate LitSpaces(lit: string, s: string, w: nat) {
    |lit| + w <= |s| && s[..|lit|] == lit && w >= 1 && AllSpace(s[|lit|..|lit| + w])
  }

  /**
   * The number of spaces a greedy `lit\s+` consumes at the start of `s`, or None when
   * `lit\s+` does not match there.
   */
  function SpacedLit(lit: string, s: string): (r: Option<nat>)
    ensures r.Some? ==> LitSpaces(lit, s, r.value)
                        && (|lit| + r.value < |s| ==> !IsSpace(s[|lit| + r.value]))
  {
    if |s| < |lit| || s[..|lit|] != lit then None
    else
      var rest := s[|lit|..];
      var w := SpaceRun(rest);
      if w == 0 then None
      else
        assert s[|lit|..|lit| + w] == rest[..w];
        Some(w)
  }

  /** A match of `lit\s+` whose space run is maximal (it ends the text or meets a non-space) is found. */
  lemma SpacedLitComplete(lit: string, s: string, w: nat)
    requires LitSpaces(lit, s, w) && (|lit| + w < |s| ==> !IsSpace(s[|lit| + w]))
    ensures SpacedLit(lit, s) == Some(w)
  {
    var rest := s[|lit|..];
    assert rest[..w] == s[|lit|..|lit| + w];
    SpaceRunUnique(rest, w);
  }

  /** `t` starts with `cap`, a non-empty run of class `k` that the next character (if any) does not continue. */
  ghost predicate RunAt(t: string, k: CharClass, cap: string) {
    1 <= |cap| <= |t| && t[..|cap|] == cap && AllIn(cap, k) && (|cap| < |t| ==> !InClass(t[|cap|], k))
  }

  /** The greedy `(k+)` at the start of `t`, or None. */
  function RunCapture(t: string, k: CharClass): (r: Option<string>)
    ensures r.Some? ==> RunAt(t, k, r.value)
  {
    var n := ClassRun(t, k);
    if n == 0 then None else Some(t[..n])
  }

  lemma RunCaptureComplete(t: string, k: CharClass, cap: string)
    requires RunAt(t, k, cap)
    ensures RunCapture(t, k) == Some(cap)
  {
    ClassRunUnique(t, k, |cap|);
  }

  /** `s` matches `lit\s+(k+)` at its start, with `w` spaces and capture `cap`. */
  ghost predicate LabelledAt(lit: string, k: CharClass, s: string, w: nat, cap: string) {
    LitSpaces(lit, s, w) && RunAt(s[|lit| + w..], k, cap)
  }

  /**
   * Group 1 of `lit\s+(k+)` matched at the start of `s`, or None. A present
   * result is the capture of a `LabelledAt` reading of `s`.
   */
  function LabelledRun(lit: string, k: CharClass, s: string): (r: Option<string>)
    ensures r.Some? ==> exists w :: LabelledAt(lit, k, s, w, r.value)
  {
    match SpacedLit(lit, s)
    case None => None
    case Some(w) =>
      var r := RunCapture(s[|lit| + w..], k);
      assert r.Some? ==> LabelledAt(lit, k, s, w, r.value);
      r
  }

  /** Whenever `s` has a `LabelledAt` reading, the matcher finds it: the capture is unique. */
  lemma {:induction false} LabelledRunComplete(lit: string, k: CharClass, s: string, w: nat, cap: string)
    requires LabelledAt(lit, k, s, w, cap)
    ensures LabelledRun(lit, k, s) == Some(cap)
  {
    var t := s[|lit| + w..];
    assert t[0] == cap[0];
    ClassExcludesSpace(cap[0], k);
    SpacedLitComplete(lit, s, w);
    RunCaptureComplete(t, k, cap);
  }

  /**
   * `s` matches `Time\s+now\s+([0-9\.]+),\s+(\S+)` at its start, with `w1`, `w2`, `w3`
   * spaces in the three `\s+` and `cap` as group 1.
   */
  ghost predicate ClockLine(s: string, w1: nat, w2: nat, cap: string, w3: nat) {
    LitSpaces("Time", s, w1) && NowTail(s[4 + w1..], w2, cap, w3)
  }

  /** `s2` matches `now\s+([0-9\.]+),\s+\S` at its start. */
  ghost predicate NowTail(s2: string, w2: nat, cap: string, w3: nat) {
    LitSpaces("now", s2, w2) && ValueTail(s2[3 + w2..], cap, w3)
  }

  /** `s3` matches `([0-9\.]+),\s+\S` at its start. */
  ghost predicate ValueTail(s3: string, cap: string, w3: nat) {
    RunAt(s3, DigitOrDot, cap) && CommaTail(s3[|cap|..], w3)
  }

  /** `s4` matches `,\s+\S` at its start, with `w3` spaces: the second group needs one non-space. */
  ghost predicate CommaTail(s4: string, w3: nat) {
    LitSpaces(",", s4, w3) && 1 + w3 < |s4| && !IsSpace(s4[1 + w3])
  }

  /** The spaces of a greedy `,\s+` at the start of `s4` when a non-space follows them. */
  function CommaAfter(s4: string): (r: Option<nat>)
    ensures r.Some? ==> CommaTail(s4, r.value)
  {
    match SpacedLit(",", s4)
    case None => None
    case Some(w3) => if 1 + w3 == |s4| then None else Some(w3)
  }

  lemma CommaAfterComplete(s4: string, w3: nat)
    requires CommaTail(s4, w3)
    ensures CommaAfter(s4) == Some(w3)
  {
    SpacedLitComplete(",", s4, w3);
  }

  /** Group 1 and the comma's spaces of `([0-9\.]+),\s+\S` at the start of `s3`. */
  function ValueAfter(s3: string): (r: Option<(string, nat)>)
    ensures r.Some? ==> ValueTail(s3, r.value.0, r.value.1)
  {
    match RunCapture(s3, DigitOrDot)
    case None => None
    case Some(cap) =>
      match CommaAfter(s3[|cap|..])
      case None => None
      case Some(w3) => Some((cap, w3))
  }

  lemma ValueAfterComplete(s3: string, cap: string, w3: nat)
    requires ValueTail(s3, cap, w3)
    ensures ValueAfter(s3) == Some((cap, w3))
  {
    RunCaptureComplete(s3, DigitOrDot, cap);
    CommaAfterComplete(s3[|cap|..], w3);
  }

  /** The reading of `now\s+([0-9\.]+),\s+\S` at the start of `s2`. */
  function NowAfter(s2: string): (r: Option<(nat, string, nat)>)
    ensures r.Some? ==> NowTail(s2, r.value.0, r.value.1, r.value.2)
  {
    match SpacedLit("now", s2)
    case None => None
    case Some(w2) =>
      match ValueAfter(s2[3 + w2..])
      case None => None
      case Some((cap, w3)) => Some((w2, cap, w3))
  }

  lemma NowAfterComplete(s2: string, w2: nat, cap: string, w3: nat)
    requires NowTail(s2, w2, cap, w3)
    ensures NowAfter(s2) == Some((w2, cap, w3))
  {
    var s3 := s2[3 + w2..];
    assert s2[3 + w2] == s3[0] == cap[0];
    ClassExcludesSpace(cap[0], DigitOrDot);
    SpacedLitComplete("now", s2, w2);
    ValueAfterComplete(s3, cap, w3);
  }

  /** The space counts and group 1 of a clock match at the start of `s`, or None. */
  function ClockReading(s: string): (r: Option<(nat, nat, string, nat)>)
    ensures r.Some? ==> ClockLine(s, r.value.0, r.value.1, r.value.2, r.value.3)
  {
    match SpacedLit("Time", s)
    case None => None
    case Some(w1) =>
      match NowAfter(s[4 + w1..])
      case None => None
      case Some(t) => Some((w1, t.0, t.1, t.2))
  }

  /** Group 1 of the clock pattern matched at the start of `s`, or None. */
  function ClockAt(s: string): (r: Option<string>)
    ensures r.Some? ==> exists w1, w2, w3 :: ClockLine(s, w1, w2, r.value, w3)
  {
    match ClockReading(s)
    case None => None
    case Some(m) => Some(m.2)
  }

  /** Whenever `s` starts with a clock line, the matcher finds its capture. */
  lemma {:induction false} ClockAtComplete(s: string, w1: nat, w2: nat, cap: string, w3: nat)
    requires ClockLine(s, w1, w2, cap, w3)
    ensures ClockAt(s) == Some(cap)
  {
    var s2 := s[4 + w1..];
    assert 4 + w1 < |s| && s[4 + w1] == 'n' by { assert s2[..3] == "now"; }
    SpacedLitComplete("Time", s, w1);
    NowAfterComplete(s2, w2, cap, w3);
  }

  /** The three fixed patterns of vpp/cli.go. */
  datatype Pattern =
    | VersionPattern  // Version:\s+(\S+)
    | PidPattern      // PID:\s+([0-9]+)
    | ClockPattern    // Time\s+now\s+([0-9\.]+),\s+(\S+)

  /** Group 1 of pattern `p` matched at the start of `s`, or None. */
  function MatchAt(p: Pattern, s: string): Option<string> {
    match p
    case VersionPattern => LabelledRun("Version:", NonSpace, s)
    case PidPattern => LabelledRun("PID:", Digit, s)
    case ClockPattern => ClockAt(s)
  }

  /**
   * The scan of `s` from position `i` on with the anchored matcher `m`: None exactly
   * when `m` fails at every position from `i` on, otherwise what `m` gives at the
   * least position where it succeeds.
   */
  function ScanFrom(m: string -> Option<string>, s: string, i: nat): (r: Option<string>)
    requires i <= |s|
    ensures r.None? <==> forall j :: i <= j <= |s| ==> m(s[j..]).None?
    ensures r.Some? ==> exists j :: i <= j <= |s| && m(s[j..]) == r
                                    && forall l :: i <= l < j ==> m(s[l..]).None?
    decreases |s| - i
  {
    var here := m(s[i..]);
    if here.Some? || i == |s| then here else ScanFrom(m, s, i + 1)
  }

  /**
   * Group 1 of the leftmost match of `p` in `s` (Go's `FindStringSubmatch(s)[1]`):
   * None exactly when no position matches, otherwise the capture at the least
   * position that matches.
   */
  function FindSubmatch(p: Pattern, s: string): (r: Option<string>)
    ensures r.None? <==> forall i :: 0 <= i <= |s| ==> MatchAt(p, s[i..]).None?
    ensures r.Some? ==> exists i :: 0 <= i <= |s| && MatchAt(p, s[i..]) == r
                                    && forall j :: 0 <= j < i ==> MatchAt(p, s[j..]).None?
  {
    ScanFrom(Matcher(p), s, 0)
  }

  /** The anchored matcher of `p` as a value, for the scanner. */
  function Matcher(p: Pattern): string -> Option<string> {
    t => MatchAt(p, t)
  }

  /** Positions where `m` fails can be passed over. */
  lemma {:induction false} ScanPast(m: string -> Option<string>, t: string, i: nat, k: nat)
    requires i <= k <= |t|
    requires forall j :: i <= j < k ==> m(t[j..]).None?
    ensures ScanFrom(m, t, i) == ScanFrom(m, t, k)
    decreases k - i
  {
    if i < k { ScanPast(m, t, i + 1, k); }
  }

  /** Scanning `t` from offset `off` on is scanning the suffix `t[off..]`. */
  lemma {:induction false} ScanShift(m: string -> Option<string>, t: string, off: nat, i: nat)
    requires off + i <= |t|
    ensures ScanFrom(m, t, off + i) == ScanFrom(m, t[off..], i)
    decreases |t| - off - i
  {
    if off + i < |t| && m(t[off + i..]).None? {
      ScanShift(m, t, off, i + 1);
      assert ScanFrom(m, t, off + i) == ScanFrom(m, t, off + i + 1);
      assert ScanFrom(m, t[off..], i) == ScanFrom(m, t[off..], i + 1) by {
        assert t[off..][i..] == t[off + i..];
      }
    } else {
      assert t[off..][i..] == t[off + i..];
    }
  }

  /** A prefix where nothing matches can be dropped: the scan resumes after it. */
  lemma {:induction false} FindSubmatchSkips(p: Pattern, pre: string, s: string)
    requires forall i :: 0 <= i < |pre| ==> MatchAt(p, (pre + s)[i..]).None?
    ensures FindSubmatch(p, pre + s) == FindSubmatch(p, s)
  {
    ScanPast(Matcher(p), pre + s, 0, |pre|);
    ScanShift(Matcher(p), pre + s, |pre|, 0);
    assert (pre + s)[|pre|..] == s;
  }

  // ---------------------------------------------------------------------------
  // show version verbose

  /** The fields of api.VersionInfo that GetVersionInfoCLI fills in. */
  datatype VersionInfo = VersionInfo(version: string, pid: int)

  /**
   * The version: group 1 of the leftmost `Version:\s+(\S+)`, or "" when there is none.
   * A found version is the whole non-space run after the label and its spaces.
   */
  function VersionOf(out: string): (v: string)
    ensures v == "" <==> forall i :: 0 <= i <= |out| ==> MatchAt(VersionPattern, out[i..]).None?
    ensures forall i :: 0 <= i < |v| ==> !IsSpace(v[i])
    ensures v != "" ==> exists i, w :: 0 <= i <= |out| && LabelledAt("Version:", NonSpace, out[i..], w, v)
  {
    match FindSubmatch(VersionPattern, out)
    case Some(cap) => cap
    case None => ""
  }

  /** Go's `math.MaxInt` for a 64-bit `int`. */
  const MaxInt: int := 0x7FFF_FFFF_FFFF_FFFF

  function Pow10(n: nat): (r: nat)
    ensures r >= 1
  {
    if n == 0 then 1 else 10 * Pow10(n - 1)
  }

  function DigitValue(c: char): nat
    requires '0' <= c <= '9'
  {
    c as int - '0' as int
  }

  /** The decimal value of a digit string, read left to right; it has fewer than |ds| + 1 digits. */
  function DecimalValue(ds: string): (n: nat)
    requires AllIn(ds, Digit)
    ensures n < Pow10(|ds|)
  {
    if ds == [] then 0
    else
      var init := ds[..|ds| - 1];
      assert AllIn(init, Digit) by { assert forall i :: 0 <= i < |init| ==> init[i] == ds[i]; }
      10 * DecimalValue(init) + DigitValue(ds[|ds| - 1])
  }

  /**
   * `strconv.Atoi` on a non-empty digit string. The only failure possible is a value
   * above MaxInt, and then Atoi returns MaxInt together with the error (which the
   * caller drops). Up to 18 digits always fit.
   */
  function Atoi(ds: string): (n: int)
    requires AllIn(ds, Digit)
    ensures 0 <= n <= MaxInt
    ensures DecimalValue(ds) <= MaxInt ==> n == DecimalValue(ds)
    ensures DecimalValue(ds) > MaxInt ==> n == MaxInt
  {
    var v := DecimalValue(ds);
    if v <= MaxInt then v else MaxInt
  }

  /** 18 decimal digits never exceed MaxInt: Atoi's fast path. */
  lemma {:induction false} AtoiExactUpTo18Digits(ds: string)
    requires AllIn(ds, Digit) && |ds| <= 18
    ensures Atoi(ds) == DecimalValue(ds)
  {
    Pow10Monotone(|ds|, 18);
    assert Pow10(18) == 1_000_000_000_000_000_000 by {
      assert Pow10(3) == 1000;
      assert Pow10(6) == 1000 * Pow10(3);
      assert Pow10(9) == 1000 * Pow10(6);
      assert Pow10(12) == 1000 * Pow10(9);
      assert Pow10(15) == 1000 * Pow10(12);
      assert Pow10(18) == 1000 * Pow10(15);
    }
  }

  lemma {:induction false} Pow10Monotone(m: nat, n: nat)
    requires m <= n
    ensures Pow10(m) <= Pow10(n)
    decreases n - m
  {
    if m < n { Pow10Monotone(m + 1, n); }
  }

  /** The PID: Atoi of group 1 of the leftmost `PID:\s+([0-9]+)`, or 0 when there is none. */
  function PidOf(out: string): (pid: int)
    ensures 0 <= pid <= MaxInt
    ensures (forall i :: 0 <= i <= |out| ==> MatchAt(PidPattern, out[i..]).None?) ==> pid == 0
  {
    match FindSubmatch(PidPattern, out)
    case Some(ds) => Atoi(ds)
    case None => 0
  }

  /** The search returns the capture at a matching position when no earlier position matches. */
  lemma FindSubmatchFirst(p: Pattern, s: string, i: nat)
    requires i <= |s| && MatchAt(p, s[i..]).Some?
    requires forall j :: 0 <= j < i ==> MatchAt(p, s[j..]).None?
    ensures FindSubmatch(p, s) == MatchAt(p, s[i..])
  {
    var r := FindSubmatch(p, s);
    var k :| 0 <= k <= |s| && MatchAt(p, s[k..]) == r && forall j :: 0 <= j < k ==> MatchAt(p, s[j..]).None?;
    assert !(k < i);
    assert !(i < k);
  }

  /** The PID is read from the leftmost `PID:` followed by spaces and digits. */
  lemma {:induction false} PidOfLeftmost(out: string, i: nat, w: nat, ds: string)
    requires i <= |out| && LabelledAt("PID:", Digit, out[i..], w, ds)
    requires forall j :: 0 <= j < i ==> MatchAt(PidPattern, out[j..]).None?
    ensures PidOf(out) == Atoi(ds)
  {
    LabelledRunComplete("PID:", Digit, out[i..], w, ds);
    FindSubmatchFirst(PidPattern, out, i);
  }

  /** The version is read from the leftmost `Version:` followed by spaces and a non-space run. */
  lemma {:induction false} VersionOfLeftmost(out: string, i: nat, w: nat, v: string)
    requires i <= |out| && LabelledAt("Version:", NonSpace, out[i..], w, v)
    requires forall j :: 0 <= j < i ==> MatchAt(VersionPattern, out[j..]).None?
    ensures VersionOf(out) == v
  {
    LabelledRunComplete("Version:", NonSpace, out[i..], w, v);
    FindSubmatchFirst(VersionPattern, out, i);
  }

  /** A label cannot start at a position of the text whose character is not the label's first. */
  lemma NoLabelBeforeHead(lit: string, k: CharClass, pre: string, rest: string, j: nat)
    requires |lit| >= 1 && lit[0] !in pre && j < |pre|
    ensures LabelledRun(lit, k, (pre + rest)[j..]).None?
  {
    assert (pre + rest)[j..][0] == pre[j];
  }

  /** `lit + spaces + cap + rest` reads as `lit\s+(k+)` with capture `cap` when `rest` does not continue the run. */
  lemma LabelledLine(lit: string, k: CharClass, spaces: string, cap: string, rest: string)
    requires |spaces| >= 1 && AllSpace(spaces)
    requires |cap| >= 1 && AllIn(cap, k)
    requires rest == [] || !InClass(rest[0], k)
    ensures LabelledAt(lit, k, lit + spaces + cap + rest, |spaces|, cap)
  {
    var tail := lit + spaces + cap + rest;
    assert tail[..|lit|] == lit;
    assert tail[|lit|..|lit| + |spaces|] == spaces;
    assert tail[|lit| + |spaces|..] == cap + rest;
    assert (cap + rest)[..|cap|] == cap;
  }

  /** No position of a prefix that lacks the label's first character starts a match. */
  lemma NoMatchBeforeHead(p: Pattern, lit: string, k: CharClass, pre: string, rest: string)
    requires p != ClockPattern && lit == (if p == VersionPattern then "Version:" else "PID:")
    requires k == (if p == VersionPattern then NonSpace else Digit)
    requires lit[0] !in pre
    ensures forall j :: 0 <= j < |pre| ==> MatchAt(p, (pre + rest)[j..]).None?
  {
    forall j | 0 <= j < |pre| ensures MatchAt(p, (pre + rest)[j..]).None? {
      NoLabelBeforeHead(lit, k, pre, rest, j);
    }
  }

  /**
   * In `pre + "PID:" + spaces + digits + rest`, with no `P` in `pre` and no digit
   * continuing the digits, the PID is Atoi of those digits.
   */
  lemma {:induction false} PidOfLine(pre: string, spaces: string, ds: string, rest: string)
    requires 'P' !in pre
    requires |spaces| >= 1 && AllSpace(spaces)
    requires |ds| >= 1 && AllIn(ds, Digit)
    requires rest == [] || !InClass(rest[0], Digit)
    ensures PidOf(pre + "PID:" + spaces + ds + rest) == Atoi(ds)
  {
    var tail := "PID:" + spaces + ds + rest;
    var out := pre + tail;
    assert out == pre + "PID:" + spaces + ds + rest;
    assert out[|pre|..] == tail;
    LabelledLine("PID:", Digit, spaces, ds, rest);
    NoMatchBeforeHead(PidPattern, "PID:", Digit, pre, tail);
    PidOfLeftmost(out, |pre|, |spaces|, ds);
  }

  /** The line `Current PID:              170` of `show version verbose` gives PID 170. */
  lemma PidDocExample(out: string)
    requires out == "Current PID:              170"
    ensures PidOf(out) == 170
  {
    assert out == "Current " + "PID:" + "              " + "170" + "";
    PidOfLine("Current ", "              ", "170", "");
    AtoiOf170();
  }

  /** The whole documented `show version verbose` reply gives PID 170. */
  lemma PidDocReply(out: string)
    requires out == DocReplyHead + "Current PID:              170"
    ensures PidOf(out) == 170
  {
    DocReplyHeadLacksP();
    var pre := DocReplyHead + "Current ";
    assert out == pre + "PID:" + "              " + "170" + "";
    PidOfLine(pre, "              ", "170", "");
    AtoiOf170();
  }

  /** No line before the PID line contains a `P`, so no `PID:` match can start there. */
  lemma DocReplyHeadLacksP()
    ensures 'P' !in DocReplyHead + "Current "
  {
    DocVersionLineLacksP();
    DocCompiledByLineLacksP();
    DocHostLineLacksP();
    DocDateLineLacksP();
    DocLocationLineLacksP();
    DocCompilerLineLacksP();
  }

  /** The lines of the documented `show version verbose` reply before its PID line. */
  const DocReplyHead: string :=
    DocVersionLine + DocCompiledByLine + DocHostLine + DocDateLine + DocLocationLine + DocCompilerLine

  const DocVersionLine: string :=
    "Version:                  " + "v20.09-rc0~399-gef80ad6bf~" + "b1658\n"

  const DocCompiledByLine: string :=
    "Compiled by:              " + "root\n"

  lemma DocVersionLineLacksP()
    ensures 'P' !in DocVersionLine
  {
    assert 'P' !in "Version:                  ";
    assert 'P' !in "v20.09-rc0~399-gef80ad6bf~";
    assert 'P' !in "b1658\n";
  }

  lemma DocCompiledByLineLacksP()
    ensures 'P' !in DocCompiledByLine
  {
    assert 'P' !in "Compiled by:              ";
    assert 'P' !in "root\n";
  }

  const DocHostLine: string :=
    "Compile host:             " + "31cb557be35c\n"

  const DocDateLine: string :=
    "Compile date:             " + "2020-09-09T11:13:09\n"

  lemma DocHostLineLacksP()
    ensures 'P' !in DocHostLine
  {
    assert 'P' !in "Compile host:             ";
    assert 'P' !in "31cb557be35c\n";
  }

  lemma DocDateLineLacksP()
    ensures 'P' !in DocDateLine
  {
    assert 'P' !in "Compile date:             ";
    assert 'P' !in "2020-09-09T11:13:09\n";
  }

  const DocLocationLine: string :=
    "Compile location:         " + "/w/workspace/vpp-merge-mas" + "ter-ubuntu1804\n"

  const DocCompilerLine: string :=
    "Compiler:                 " + "Clang/LLVM 9.0.0 (tags/REL" + "EASE_900/final)\n"

  lemma DocLocationLineLacksP()
    ensures 'P' !in DocLocationLine
  {
    assert 'P' !in "Compile location:         ";
    assert 'P' !in "/w/workspace/vpp-merge-mas";
    assert 'P' !in "ter-ubuntu1804\n";
  }

  lemma DocCompilerLineLacksP()
    ensures 'P' !in DocCompilerLine
  {
    assert 'P' !in "Compiler:                 ";
    assert 'P' !in "Clang/LLVM 9.0.0 (tags/REL";
    assert 'P' !in "EASE_900/final)\n";
  }

  lemma AtoiOf170()
    ensures Atoi("170") == 170
  {
    assert DecimalValue("1") == 1;
    assert DecimalValue("17") == 17 by { assert "17"[..1] == "1"; }
    assert DecimalValue("170") == 170 by { assert "170"[..2] == "17"; }
  }

  /**
   * In `pre + "Version:" + spaces + v + rest`, with no `V` in `pre`, `v` a non-space
   * run and `rest` empty or starting with a space, the version is `v`.
   */
  lemma {:induction false} VersionOfLine(pre: string, spaces: string, v: string, rest: string)
    requires 'V' !in pre
    requires |spaces| >= 1 && AllSpace(spaces)
    requires |v| >= 1 && AllIn(v, NonSpace)
    requires rest == [] || IsSpace(rest[0])
    ensures VersionOf(pre + "Version:" + spaces + v + rest) == v
  {
    var tail := "Version:" + spaces + v + rest;
    var out := pre + tail;
    assert out == pre + "Version:" + spaces + v + rest;
    assert out[|pre|..] == tail;
    LabelledLine("Version:", NonSpace, spaces, v, rest);
    NoMatchBeforeHead(VersionPattern, "Version:", NonSpace, pre, tail);
    VersionOfLeftmost(out, |pre|, |spaces|, v);
  }

  /** The first two lines of a `show version verbose` reply give the build's version string. */
  lemma VersionDocExample()
    ensures VersionOf("" + "Version:" + "                  " + "v20.09-rc0~399-gef80ad6bf~b1658"
                      + "\nCompiled by:              root")
            == "v20.09-rc0~399-gef80ad6bf~b1658"
  {
    VersionOfLine("", "                  ", "v20.09-rc0~399-gef80ad6bf~b1658", "\nCompiled by:              root");
  }

  /** GetVersionInfoCLI after `show version verbose` has returned `out`. */
  function GetVersionInfoCLI(out: Result<string, Error>): (r: Result<VersionInfo, Error>)
    ensures out.Failure? ==> r == Failure(out.error)
    ensures out.Success? ==> r.Success? && r.value.version == VersionOf(out.value)
                             && r.value.pid == PidOf(out.value)
  {
    match out
    case Failure(e) => Failure(e)
    case Success(text) => Success(VersionInfo(VersionOf(text), PidOf(text)))
  }

  // ---------------------------------------------------------------------------
  // show clock

  /** A time.Duration: a signed count of nanoseconds. */
  type Duration = int

  /**
   * The uptime read from `out`: group 1 of the leftmost clock match converted by
   * `parseSeconds` (which stands for strconv.ParseFloat and the scaling to
   * nanoseconds), and zero when there is no match or the conversion fails.
   */
  function UptimeOf(out: string, parseSeconds: string -> Option<Duration>): (d: Duration)
    ensures (forall i :: 0 <= i <= |out| ==> MatchAt(ClockPattern, out[i..]).None?) ==> d == 0
    ensures d != 0 ==> exists raw :: FindSubmatch(ClockPattern, out) == Some(raw)
                                     && parseSeconds(raw) == Some(d)
  {
    match FindSubmatch(ClockPattern, out)
    case None => 0
    case Some(raw) =>
      match parseSeconds(raw)
      case None => 0
      case Some(d) => d
  }

  /**
   * The uptime is read from the leftmost clock match: the conversion of its group 1,
   * or zero when that conversion fails.
   */
  lemma {:induction false} UptimeOfLeftmost(out: string, i: nat, w1: nat, w2: nat, cap: string, w3: nat,
                                            parseSeconds: string -> Option<Duration>)
    requires i <= |out| && ClockLine(out[i..], w1, w2, cap, w3)
    requires forall j :: 0 <= j < i ==> MatchAt(ClockPattern, out[j..]).None?
    ensures UptimeOf(out, parseSeconds) == match parseSeconds(cap) case Some(d) => d case None => 0
  {
    ClockAtComplete(out[i..], w1, w2, cap, w3);
    FindSubmatchFirst(ClockPattern, out, i);
  }

  /** GetUptimeCLI after `show clock` has returned `out`. */
  function GetUptimeCLI(out: Result<string, Error>, parseSeconds: string -> Option<Duration>): (r: Result<Duration, Error>)
    ensures out.Failure? ==> r == Failure(out.error)
    ensures out.Success? ==> r.Success? && r.value == UptimeOf(out.value, parseSeconds)
  {
    match out
    case Failure(e) => Failure(e)
    case Success(text) => Success(UptimeOf(text, parseSeconds))
  }

  // ---------------------------------------------------------------------------
  // show log

  /** The number of newlines in `s`. */
  function NewlineCount(s: string): nat {
    if s == [] then 0 else (if s[0] == '\n' then 1 else 0) + NewlineCount(s[1..])
  }

  /**
   * `strings.Split(s, "\n")`: the pieces between newlines, one more piece than there
   * are newlines (so "" gives [""]), none of them holding a newline.
   */
  function SplitLines(s: string): (lines: seq<string>)
    ensures |lines| == NewlineCount(s) + 1
    ensures forall i :: 0 <= i < |lines| ==> '\n' !in lines[i]
  {
    if s == [] then [""]
    else
      var rest := SplitLines(s[1..]);
      if s[0] == '\n' then [""] + rest
      else [[s[0]] + rest[0]] + rest[1..]
  }

  /** `strings.Join(lines, "\n")`. */
  function JoinLines(lines: seq<string>): string {
    if lines == [] then ""
    else if |lines| == 1 then lines[0]
    else lines[0] + "\n" + JoinLines(lines[1..])
  }

  /** Joining the split lines with newlines gives back the command output exactly. */
  lemma {:induction false} JoinSplitLines(s: string)
    ensures JoinLines(SplitLines(s)) == s
  {
    if s != [] {
      JoinSplitLines(s[1..]);
      var rest := SplitLines(s[1..]);
      if s[0] == '\n' {
        assert SplitLines(s) == [""] + rest;
        assert ([""] + rest)[1..] == rest;
        assert s == [s[0]] + s[1..];
      } else {
        var lines := [[s[0]] + rest[0]] + rest[1..];
        if |rest| == 1 {
          assert rest == [rest[0]];
          assert s == [s[0]] + s[1..];
        } else {
          assert lines[1..] == rest[1..];
          assert JoinLines(rest) == rest[0] + "\n" + JoinLines(rest[1..]);
          assert s == [s[0]] + s[1..];
        }
      }
    }
  }

  /** Splitting newline-free lines joined by newlines gives back the lines. */
  lemma {:induction false} SplitJoinLines(lines: seq<string>)
    requires |lines| >= 1
    requires forall i :: 0 <= i < |lines| ==> '\n' !in lines[i]
    ensures SplitLines(JoinLines(lines)) == lines
    decreases |lines|, |lines[0]|
  {
    var head := lines[0];
    if head == [] {
      if |lines| > 1 {
        assert JoinLines(lines) == "\n" + JoinLines(lines[1..]);
        SplitJoinLines(lines[1..]);
        assert ("\n" + JoinLines(lines[1..]))[1..] == JoinLines(lines[1..]);
        assert lines == [""] + lines[1..];
      }
    } else {
      var lines' := [head[1..]] + lines[1..];
      assert '\n' !in head[1..] by { assert forall c :: c in head[1..] ==> c in head; }
      SplitJoinLines(lines');
      if |lines| == 1 {
        assert JoinLines(lines') == head[1..];
      } else {
        assert lines'[1..] == lines[1..];
        assert JoinLines(lines) == head + "\n" + JoinLines(lines[1..]);
        assert JoinLines(lines') == head[1..] + "\n" + JoinLines(lines[1..]);
      }
      var j := JoinLines(lines);
      assert j[0] == head[0] && j[1..] == JoinLines(lines');
      assert head[0] != '\n' by { assert head[0] in head; }
      assert [head[0]] + head[1..] == head;
    }
  }

  /** DumpLogsCLI after `show log` has returned `out`. */
  function DumpLogsCLI(out: Result<string, Error>): (r: Result<seq<string>, Error>)
    ensures out.Failure? ==> r == Failure(out.error)
    ensures out.Success? ==> r.Success? && JoinLines(r.value) == out.value
                             && |r.value| == NewlineCount(out.value) + 1
                             && forall i :: 0 <= i < |r.value| ==> '\n' !in r.value[i]
  {
    match out
    case Failure(e) => Failure(e)
    case Success(text) =>
      JoinSplitLines(text);
      Success(SplitLines(text))
  }
}
