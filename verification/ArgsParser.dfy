/** The parser for the OPERAND_*_ARGS environment variables, and the printer it inverts. */
module ArgsParser {
  import opened Text
  import opened Args

  // ---------- the separator `,+\s*--` ----------

  /** The length of the match of `,+\s*--` at the start of `s`, or 0 when there is none.  The
      three classes are disjoint, so the greedy match is the only one. */
  function SeparatorLength(s: string): (n: nat)
    ensures n <= |s|
    ensures n > 0 ==> n >= 3 && s[0] == ',' && s[n - 2..n] == "--"
  {
    var t := s[RunLength(s, IsComma)..];
    var u := t[RunLength(t, IsRegexSpace)..];
    if |t| < |s| && HasPrefix(u, "--") then
      assert u[..2] == s[|s| - |u|..|s| - |u| + 2];
      |s| - |u| + 2
    else 0
  }

  /** No separator starts anywhere in `s`. */
  predicate NoSeparator(s: string) {
    s == "" || (SeparatorLength(s) == 0 && NoSeparator(s[1..]))
  }

  /** `operandArgsEnvSeparator.Split(s, -1)` on a string: cut at every leftmost match. */
  function Split(s: string): (parts: seq<string>)
    ensures |parts| >= 1
    decreases |s|
  {
    if s == "" then [""]
    else if SeparatorLength(s) > 0 then [""] + Split(s[SeparatorLength(s)..])
    else
      var rest := Split(s[1..]);
      [[s[0]] + rest[0]] + rest[1..]
  }

  // ---------- the parser ----------

  datatype Part = Skip | Flag(flag: string) | Invalid(text: string)

  /** Trim, strip trailing commas, trim again. */
  function Clean(part: string): string {
    TrimSpace(TrimRight(TrimSpace(part), IsComma))
  }

  /** A flag without a value cannot carry a comma: drop what follows the first one. */
  function DropJunk(part: string): string {
    var j := IndexOf(part, ',');
    if '=' !in part && j >= 0 then TrimSpace(part[..j]) else part
  }

  /** One round of the parser's loop, on a part that already has its `--` back. */
  function ParsePart(part: string): Part {
    var p := Clean(part);
    if p == "" then Skip
    else if !HasPrefix(p, "--") || p == "--" then Invalid(p)
    else
      var q := DropJunk(p);
      if q == "--" || FlagKey(q) == "--" then Invalid(q) else Flag(q)
  }

  /** Later parts lost their leading `--` to the separator. */
  function Restore(part: string, first: bool): string {
    if first then part else "--" + part
  }

  function ParseParts(parts: seq<string>, first: bool): Result<seq<string>, string> {
    if parts == [] then Ok([])
    else
      match ParsePart(Restore(parts[0], first))
      case Invalid(text) => Err(text)
      case Skip => ParseParts(parts[1..], false)
      case Flag(f) =>
        var rest := ParseParts(parts[1..], false);
        if rest.Ok? then Ok([f] + rest.value) else rest
  }

  /** `parseOperandArgsEnv`. */
  function Parse(raw: string): Result<seq<string>, string> {
    var s := TrimSpace(raw);
    if s == "" then Ok([]) else ParseParts(Split(s), true)
  }

  /** The parser as the operator runs it: one loop that appends to the list of flags. */
  method ParseOperandArgsEnv(raw: string) returns (r: Result<seq<string>, string>)
    ensures r == Parse(raw)
  {
    hide ParsePart, Split, TrimSpace;
    var s := TrimSpace(raw);
    if s == "" {
      return Ok([]);
    }
    var parts := Split(s);
    var args: seq<string> := [];
    ghost var rest := ParseParts(parts, true);
    assert parts[0..] == parts;
    for i := 0 to |parts|
      invariant rest == ParseParts(parts[i..], i == 0)
      invariant ParseParts(parts, true) == Prepend(args, rest)
    {
      assert parts[i..][1..] == parts[i + 1..];
      rest := ParseParts(parts[i + 1..], false);
      match ParsePart(Restore(parts[i], i == 0)) {
        case Invalid(text) => return Err(text);
        case Skip =>
        case Flag(f) =>
          assert rest.Ok? ==> args + ([f] + rest.value) == (args + [f]) + rest.value;
          args := args + [f];
      }
    }
    return Ok(args);
  }

  /** The flags read so far, followed by the outcome of the rest. */
  function Prepend(args: seq<string>, r: Result<seq<string>, string>): (p: Result<seq<string>, string>)
    ensures args == [] ==> p == r
    ensures r == Ok([]) ==> p == Ok(args)
  {
    if r.Ok? then
      assert [] + r.value == r.value && args + [] == args;
      Ok(args + r.value)
    else r
  }

  // ---------- what a parsed flag looks like ----------

  /** `--name` or `--name=value` with a non-empty name. */
  predicate NamedFlag(f: string) {
    HasPrefix(f, "--") && FlagKey(f) != "--"
  }

  /** What every flag of a successful parse satisfies. */
  predicate WellFormed(f: string) {
    && NamedFlag(f)
    && NoSeparator(f)
    && !IsSpace(f[|f| - 1])
    && ('=' !in f ==> ',' !in f)
  }

  /** The flags that the printer can print and the parser reads back. */
  predicate Canonical(f: string) {
    WellFormed(f) && f[|f| - 1] != ','
  }

  /** The printer: a comma between flags. */
  function Join(flags: seq<string>): string {
    if flags == [] then ""
    else if |flags| == 1 then flags[0]
    else flags[0] + "," + Join(flags[1..])
  }

  // ---------- separators and substrings ----------

  lemma SeparatorExtend(s: string, t: string)
    requires SeparatorLength(s) > 0
    ensures SeparatorLength(s + t) == SeparatorLength(s)
  {
    hide IsRegexSpace, RunLength;
    AfterRun(s, t, IsComma);
    var u := s[RunLength(s, IsComma)..];
    AfterRun(u, t, IsRegexSpace);
    var v := u[RunLength(u, IsRegexSpace)..];
    assert (v + t)[0] == v[0] && (v + t)[1] == v[1];
  }

  lemma {:induction false} NoSeparatorInSuffix(s: string, i: nat)
    requires i <= |s| && NoSeparator(s)
    ensures NoSeparator(s[i..])
  {
    hide SeparatorLength;
    if i == 0 {
      assert s[0..] == s;
    } else {
      NoSeparatorInSuffix(s[1..], i - 1);
      assert s[1..][i - 1..] == s[i..];
    }
  }

  lemma {:induction false} NoSeparatorInPrefix(s: string, j: nat)
    requires j <= |s| && NoSeparator(s)
    ensures NoSeparator(s[..j])
  {
    hide SeparatorLength;
    if j > 0 {
      NoSeparatorInPrefix(s[1..], j - 1);
      assert s[..j][1..] == s[1..][..j - 1];
      assert s[..j] + s[j..] == s;
      if SeparatorLength(s[..j]) > 0 {
        SeparatorExtend(s[..j], s[j..]);
      }
    }
  }

  lemma TrimKeepsNoSeparator(s: string)
    requires NoSeparator(s)
    ensures NoSeparator(TrimSpace(s)) && NoSeparator(TrimRight(s, IsComma))
  {
    hide NoSeparator, SeparatorLength;
    var l := TrimLeft(s, IsSpace);
    NoSeparatorInSuffix(s, |s| - |l|);
    var r := TrimRight(l, IsSpace);
    NoSeparatorInPrefix(l, |r|);
    assert l[..|r|] == r;
    var c := TrimRight(s, IsComma);
    NoSeparatorInPrefix(s, |c|);
    assert s[..|c|] == c;
  }

  /** The first part of a split is a prefix of the string. */
  lemma {:induction false} FirstPartIsPrefix(s: string)
    ensures Split(s)[0] <= s
    decreases |s|
  {
    hide SeparatorLength;
    if s != "" && SeparatorLength(s) == 0 {
      FirstPartIsPrefix(s[1..]);
    }
  }

  ghost predicate AllNoSeparator(parts: seq<string>) {
    forall i :: 0 <= i < |parts| ==> NoSeparator(parts[i])
  }

  lemma {:induction false} PartsHaveNoSeparator(s: string)
    ensures AllNoSeparator(Split(s))
    decreases |s|
  {
    hide SeparatorLength, NoSeparator, Split;
    EmptyHasNoSeparator();
    if s == "" {
      SplitEmpty();
    } else if SeparatorLength(s) > 0 {
      SplitAtSeparator(s);
      PartsHaveNoSeparator(s[SeparatorLength(s)..]);
    } else {
      SplitStep(s);
      PartsHaveNoSeparator(s[1..]);
      var rest := Split(s[1..]);
      FirstPartIsPrefix(s);
      var p := [s[0]] + rest[0];
      assert p[1..] == rest[0];
      assert p + s[|p|..] == s;
      if SeparatorLength(p) > 0 {
        SeparatorExtend(p, s[|p|..]);
      }
      NoSeparatorCons(p);
    }
  }

  lemma EmptyHasNoSeparator()
    ensures NoSeparator("")
  {
  }

  lemma NoSeparatorCons(p: string)
    requires p != "" && SeparatorLength(p) == 0 && NoSeparator(p[1..])
    ensures NoSeparator(p)
  {
    hide SeparatorLength;
  }

  lemma PrefixedHasNoSeparator(p: string)
    requires NoSeparator(p)
    ensures NoSeparator("--" + p)
  {
    var f := "--" + p;
    assert f[1..] == "-" + p;
    assert f[1..][1..] == p;
  }

  lemma RestoredHasNoSeparator(p: string, first: bool)
    requires NoSeparator(p)
    ensures NoSeparator(Restore(p, first))
  {
    hide NoSeparator;
    PrefixedHasNoSeparator(p);
  }

  // ---------- every parsed flag is well formed ----------

  lemma CleanKeepsNoSeparator(part: string)
    requires NoSeparator(part)
    ensures NoSeparator(Clean(part)) && |Clean(part)| <= |part|
    ensures Clean(part) == "" || !IsSpace(Clean(part)[|Clean(part)| - 1])
    ensures |Clean(part)| == |part| > 0 ==> Clean(part)[|part| - 1] != ','
  {
    hide NoSeparator, IsSpace;
    var t := TrimSpace(part);
    TrimKeepsNoSeparator(part);
    var u := TrimRight(t, IsComma);
    TrimKeepsNoSeparator(t);
    TrimKeepsNoSeparator(u);
    if |Clean(part)| == |part| > 0 {
      FullLengthTrim(u);
    }
  }

  lemma FullLengthTrim(s: string)
    requires |TrimSpace(s)| == |s|
    ensures TrimSpace(s) == s
  {
    hide IsSpace;
  }

  /** Cutting a flag at its first comma leaves a flag without comma. */
  lemma JunkFreeFlag(p: string, j: nat)
    requires HasPrefix(p, "--") && j < |p| && p[j] == ',' && ',' !in p[..j] && '=' !in p
    ensures var q := TrimSpace(p[..j]);
      HasPrefix(q, "--") && q <= p && |q| < |p| && ',' !in q && '=' !in q
  {
    assert p[0] == '-' && p[1] == '-';
    var q := p[..j];
    assert q[0] == '-' && q[1] == '-';
    assert TrimLeft(q, IsSpace) == q;
    TrimRightStops(q, IsSpace, 1);
    var r := TrimRight(q, IsSpace);
    assert r == q[..|r|];
    assert r[0] == '-' && r[1] == '-';
  }

  /** Trimming on the right never passes a character that is kept. */
  lemma {:induction false} TrimRightStops(s: string, drop: char -> bool, i: nat)
    requires i < |s| && !drop(s[i])
    ensures |TrimRight(s, drop)| > i
  {
    if drop(s[|s| - 1]) {
      TrimRightStops(s[..|s| - 1], drop, i);
    }
  }

  lemma DropJunkIsWellFormed(p: string)
    requires HasPrefix(p, "--") && NoSeparator(p) && !IsSpace(p[|p| - 1])
    ensures var q := DropJunk(p);
      && HasPrefix(q, "--") && NoSeparator(q) && !IsSpace(q[|q| - 1])
      && ('=' !in q ==> ',' !in q) && |q| <= |p| && (|q| == |p| ==> q == p)
  {
    hide NoSeparator, IsSpace, TrimSpace;
    var j := IndexOf(p, ',');
    if '=' !in p && j >= 0 {
      NoSeparatorInPrefix(p, j);
      TrimKeepsNoSeparator(p[..j]);
      JunkFreeFlag(p, j);
    }
  }

  lemma ParsedPartIsWellFormed(part: string)
    requires NoSeparator(part)
    requires ParsePart(part).Flag?
    ensures var f := ParsePart(part).flag;
      && WellFormed(f) && |f| <= |part|
      && (|f| == |part| ==> f[|f| - 1] != ',')
  {
    hide Clean, NoSeparator, IsSpace, DropJunk, FlagKey;
    CleanKeepsNoSeparator(part);
    DropJunkIsWellFormed(Clean(part));
  }

  function Weight(parts: seq<string>, first: bool): nat {
    if parts == [] then 0
    else |Restore(parts[0], first)| + 1 + Weight(parts[1..], false)
  }

  /** The length of the printed list plus one, for a non-empty list. */
  function PrintedWeight(flags: seq<string>): nat {
    if flags == [] then 0 else |flags[0]| + 1 + PrintedWeight(flags[1..])
  }

  predicate NoTrailingComma(flags: seq<string>) {
    forall i :: 0 <= i < |flags| ==> flags[i] == "" || flags[i][|flags[i]| - 1] != ','
  }

  predicate AllWellFormed(flags: seq<string>) {
    forall i :: 0 <= i < |flags| ==> WellFormed(flags[i])
  }

  predicate AllCanonical(flags: seq<string>) {
    forall i :: 0 <= i < |flags| ==> Canonical(flags[i])
  }

  /** Parsing never makes text: the flags read from a text of weight `w` print back to at most
      that weight, and reach it only when no flag kept a trailing comma. */
  ghost predicate ReadFrom(flags: seq<string>, w: nat) {
    && AllWellFormed(flags)
    && PrintedWeight(flags) <= w
    && (PrintedWeight(flags) == w ==> NoTrailingComma(flags))
  }

  lemma ReadOneMore(f: string, n: nat, rest: seq<string>, w: nat)
    requires WellFormed(f) && |f| <= n && (|f| == n ==> f[|f| - 1] != ',')
    requires ReadFrom(rest, w)
    ensures ReadFrom([f] + rest, n + 1 + w)
  {
    hide WellFormed;
    assert ([f] + rest)[1..] == rest;
  }

  lemma {:induction false} ParsePartsBound(parts: seq<string>, first: bool)
    requires AllNoSeparator(parts)
    requires ParseParts(parts, first).Ok?
    ensures ReadFrom(ParseParts(parts, first).value, Weight(parts, first))
    decreases |parts|
  {
    hide NoSeparator, ParsePart, WellFormed, ReadFrom, Restore;
    if parts == [] {
      ReadNothing();
    } else {
      var part := Restore(parts[0], first);
      RestoredHasNoSeparator(parts[0], first);
      ParsePartsBound(parts[1..], false);
      var tail := ParseParts(parts[1..], false);
      var w := Weight(parts[1..], false);
      assert Weight(parts, first) == |part| + 1 + w;
      match ParsePart(part) {
        case Skip =>
          assert ParseParts(parts, first) == tail;
          ReadSkipped(tail.value, w, |part| + 1);
        case Flag(f) =>
          assert ParseParts(parts, first) == Ok([f] + tail.value);
          ParsedPartIsWellFormed(part);
          ReadOneMore(f, |part|, tail.value, w);
        case Invalid(_) =>
      }
    }
  }

  lemma ReadNothing()
    ensures ReadFrom([], 0)
  {
  }

  lemma ReadSkipped(flags: seq<string>, w: nat, n: nat)
    requires ReadFrom(flags, w) && n > 0
    ensures ReadFrom(flags, n + w)
  {
  }

  lemma {:induction false} SplitWeight(s: string)
    ensures Weight(Split(s), true) <= |s| + 1
    decreases |s|
  {
    if s == "" {
    } else if SeparatorLength(s) > 0 {
      var rest := Split(s[SeparatorLength(s)..]);
      SplitWeight(s[SeparatorLength(s)..]);
      assert Split(s)[1..] == rest;
      assert Weight(rest, false) == Weight(rest, true) + 2;
    } else {
      var rest := Split(s[1..]);
      SplitWeight(s[1..]);
      assert Split(s)[1..] == rest[1..];
    }
  }

  /** For every input: each flag of a successful parse starts with `--`, has a name, contains no
      separator and no surrounding white space, and has no comma when it has no value. */
  lemma ParsedFlagsAreWellFormed(raw: string)
    requires Parse(raw).Ok?
    ensures ReadFrom(Parse(raw).value, |raw| + 1)
  {
    hide ParseParts, Split, WellFormed, TrimSpace;
    var s := TrimSpace(raw);
    if s != "" {
      PartsHaveNoSeparator(s);
      ParsePartsBound(Split(s), true);
      SplitWeight(s);
    }
  }

  // ---------- printing and parsing ----------

  /** No separator of `x + rest` starts inside `x` when `x` has none and ends in a character
      that no separator can continue from. */
  lemma NoStraddlingSeparator(x: string, rest: string)
    requires x != "" && SeparatorLength(x) == 0
    requires x[|x| - 1] != ',' && !IsRegexSpace(x[|x| - 1])
    requires rest == "" || rest[0] == ','
    ensures SeparatorLength(x + rest) == 0
  {
    hide RunLength, HasPrefix, IsRegexSpace;
    assert IsComma(x[|x| - 1]) == false;
    AfterRun(x, rest, IsComma);
    hide IsComma;
    var y := x[RunLength(x, IsComma)..];
    assert y[|y| - 1] == x[|x| - 1];
    AfterRun(y, rest, IsRegexSpace);
    DashesBeforeComma(y[RunLength(y, IsRegexSpace)..], rest);
  }

  /** A run that stops inside `s` leaves the same rest in `s + t`. */
  lemma AfterRun(s: string, t: string, p: char -> bool)
    requires RunLength(s, p) < |s|
    ensures RunLength(s + t, p) == RunLength(s, p)
    ensures (s + t)[RunLength(s, p)..] == s[RunLength(s, p)..] + t
  {
    RunLengthExtend(s, t, p);
  }

  lemma DashesBeforeComma(y: string, rest: string)
    requires y != "" && (rest == "" || rest[0] == ',')
    ensures HasPrefix(y + rest, "--") ==> HasPrefix(y, "--")
  {
    if HasPrefix(y + rest, "--") {
      assert (y + rest)[0] == "--"[0] && (y + rest)[1] == "--"[1];
      assert y[0] == '-' && |y| >= 2 && y[1] == '-';
    }
  }

  lemma SplitStep(s: string)
    requires s != "" && SeparatorLength(s) == 0
    ensures Split(s) == [[s[0]] + Split(s[1..])[0]] + Split(s[1..])[1..]
  {
  }

  lemma {:induction false} SplitAfter(x: string, rest: string)
    requires NoSeparator(x)
    requires x == "" || (x[|x| - 1] != ',' && !IsRegexSpace(x[|x| - 1]))
    requires rest == "" || rest[0] == ','
    ensures Split(x + rest) == [x + Split(rest)[0]] + Split(rest)[1..]
    decreases |x|
  {
    hide SeparatorLength, IsRegexSpace, Split;
    if x == "" {
      assert x + rest == rest;
      assert x + Split(rest)[0] == Split(rest)[0];
    } else {
      NoStraddlingSeparator(x, rest);
      SplitStep(x + rest);
      SplitAfter(x[1..], rest);
      assert (x + rest)[1..] == x[1..] + rest;
      assert [x[0]] + (x[1..] + Split(rest)[0]) == x + Split(rest)[0];
    }
  }

  /** What the splitter makes of a printed list: later flags lose their `--`. */
  function Bare(flags: seq<string>, first: bool): (parts: seq<string>)
    requires forall i :: 0 <= i < |flags| ==> |flags[i]| >= 2
    ensures |parts| == |flags|
  {
    if flags == [] then []
    else [if first then flags[0] else flags[0][2..]] + Bare(flags[1..], false)
  }

  lemma CanonicalEnds(f: string)
    requires Canonical(f)
    ensures |f| >= 3 && f[..2] == "--" && NoSeparator(f[2..])
    ensures f[|f| - 1] != ',' && !IsSpace(f[|f| - 1])
  {
    hide NoSeparator, IsSpace;
    NoSeparatorInSuffix(f, 2);
  }

  lemma AllCanonicalEnds(flags: seq<string>)
    requires AllCanonical(flags)
    ensures forall i :: 0 <= i < |flags| ==> |flags[i]| >= 3
  {
    hide Canonical;
    forall i | 0 <= i < |flags| ensures |flags[i]| >= 3 {
      CanonicalEnds(flags[i]);
    }
  }

  /** What may stand between two flags: one or more commas, then any white space. */
  ghost predicate IsGap(gap: string) {
    exists n :: GapAt(gap, n)
  }

  predicate GapAt(gap: string, n: int) {
    && 0 < n <= |gap| && (forall k :: 0 <= k < n ==> gap[k] == ',')
    && forall k :: n <= k < |gap| ==> IsRegexSpace(gap[k])
  }

  ghost predicate AllGaps(gaps: seq<string>) {
    forall i :: 0 <= i < |gaps| ==> IsGap(gaps[i])
  }

  /** The flags with any such gaps between them. */
  function JoinWith(flags: seq<string>, gaps: seq<string>): string
    requires flags == [] || |gaps| == |flags| - 1
  {
    if flags == [] then ""
    else if |flags| == 1 then flags[0]
    else flags[0] + gaps[0] + JoinWith(flags[1..], gaps[1..])
  }

  lemma {:induction false} RunLengthIs(s: string, p: char -> bool, n: nat)
    requires n <= |s| && (forall k :: 0 <= k < n ==> p(s[k])) && (n == |s| || !p(s[n]))
    ensures RunLength(s, p) == n
  {
    if n > 0 {
      RunLengthIs(s[1..], p, n - 1);
    }
  }

  lemma {:induction false} JoinEnds(flags: seq<string>, gaps: seq<string>)
    requires flags != [] && AllCanonical(flags) && |gaps| == |flags| - 1
    ensures var s := JoinWith(flags, gaps);
      |s| >= 3 && s[..2] == "--" && !IsSpace(s[|s| - 1])
  {
    hide Canonical, IsSpace, NoSeparator;
    CanonicalEnds(flags[0]);
    if |flags| > 1 {
      JoinEnds(flags[1..], gaps[1..]);
      var rest := JoinWith(flags[1..], gaps[1..]);
      var s := flags[0] + gaps[0] + rest;
      assert JoinWith(flags, gaps) == s;
      hide JoinWith;
      assert s[..2] == flags[0][..2];
      assert s[|s| - 1] == rest[|rest| - 1];
    }
  }

  lemma GapBeforeFlag(gap: string, printed: string)
    requires IsGap(gap) && |printed| >= 2 && printed[..2] == "--"
    ensures gap[0] == ',' && SeparatorLength(gap + printed) == |gap| + 2
  {
    var n :| GapAt(gap, n);
    var s := gap + printed;
    assert printed[0] == '-' && printed[1] == '-';
    assert forall k :: 0 <= k < |gap| ==> s[k] == gap[k];
    assert s[|gap|] == '-';
    assert n < |gap| ==> IsRegexSpace(s[n]);
    RunLengthIs(s, IsComma, n);
    var t := s[n..];
    assert forall k :: 0 <= k < |gap| - n ==> t[k] == gap[n + k];
    assert t[|gap| - n] == '-';
    RunLengthIs(t, IsRegexSpace, |gap| - n);
    var u := t[|gap| - n..];
    assert u == printed;
    assert u[..2] == "--";
  }

  lemma {:induction false} SplitJoined(flags: seq<string>, gaps: seq<string>, first: bool)
    requires flags != [] && AllCanonical(flags) && |gaps| == |flags| - 1 && AllGaps(gaps)
    ensures |JoinWith(flags, gaps)| >= 2
    ensures forall i :: 0 <= i < |flags| ==> |flags[i]| >= 3
    ensures Split(if first then JoinWith(flags, gaps) else JoinWith(flags, gaps)[2..]) == Bare(flags, first)
    decreases |flags|
  {
    hide Canonical, NoSeparator, SeparatorLength, IsSpace, IsRegexSpace, Split, IsGap, JoinWith, Bare;
    AllCanonicalEnds(flags);
    JoinWithStep(flags, gaps);
    BareCons(flags, first);
    BareNothing(false);
    var f := flags[0];
    CanonicalEnds(f);
    CanonicalIsSeparatorFree(f);
    RegexSpaceIsSpace(f[|f| - 1]);
    var x := if first then f else f[2..];
    assert x[|x| - 1] == f[|f| - 1];
    if |flags| == 1 {
      SplitAfter(x, "");
      SplitEmpty();
      assert x + "" == x;
    } else {
      var printed := JoinWith(flags[1..], gaps[1..]);
      JoinEnds(flags[1..], gaps[1..]);
      GapBeforeFlag(gaps[0], printed);
      SplitAfter(x, gaps[0] + printed);
      SplitAtFlag(gaps[0], printed);
      SplitJoined(flags[1..], gaps[1..], false);
      assert x + "" == x;
      assert (if first then JoinWith(flags, gaps) else JoinWith(flags, gaps)[2..]) == x + (gaps[0] + printed);
    }
  }

  lemma JoinWithStep(flags: seq<string>, gaps: seq<string>)
    requires flags != [] && |gaps| == |flags| - 1
    ensures JoinWith(flags, gaps) ==
      if |flags| == 1 then flags[0] else flags[0] + (gaps[0] + JoinWith(flags[1..], gaps[1..]))
  {
  }

  lemma BareCons(flags: seq<string>, first: bool)
    requires flags != [] && forall i :: 0 <= i < |flags| ==> |flags[i]| >= 3
    ensures Bare(flags, first) == [if first then flags[0] else flags[0][2..]] + Bare(flags[1..], false)
  {
  }

  lemma SplitEmpty()
    ensures Split("") == [""]
  {
  }

  lemma SplitAtFlag(gap: string, printed: string)
    requires IsGap(gap) && |printed| >= 2 && printed[..2] == "--"
    ensures Split(gap + printed) == [""] + Split(printed[2..])
  {
    hide SeparatorLength, Split, IsGap;
    GapBeforeFlag(gap, printed);
    SplitAtSeparator(gap + printed);
    assert (gap + printed)[|gap| + 2..] == printed[2..];
  }

  lemma SplitAtSeparator(s: string)
    requires SeparatorLength(s) > 0
    ensures Split(s) == [""] + Split(s[SeparatorLength(s)..])
  {
    hide SeparatorLength;
  }

  lemma CanonicalIsSeparatorFree(f: string)
    requires Canonical(f)
    ensures NoSeparator(f)
  {
  }

  lemma CanonicalParsesAlone(f: string)
    requires Canonical(f)
    ensures ParsePart(f) == Flag(f)
  {
    hide NoSeparator;
    CanonicalEnds(f);
    assert f[0] == f[..2][0] == '-';
    assert TrimSpace(f) == f;
    assert TrimRight(f, IsComma) == f;
  }

  lemma ParseNoParts(first: bool)
    ensures ParseParts([], first) == Ok([])
  {
  }

  lemma ParsePartsCons(parts: seq<string>, first: bool, f: string, rest: seq<string>)
    requires parts != [] && ParsePart(Restore(parts[0], first)) == Flag(f)
    requires ParseParts(parts[1..], false) == Ok(rest)
    ensures ParseParts(parts, first) == Ok([f] + rest)
  {
    hide ParsePart, Restore;
  }

  lemma BareNothing(first: bool)
    ensures Bare([], first) == []
  {
  }

  lemma BareStep(flags: seq<string>, first: bool)
    requires flags != [] && Canonical(flags[0]) && forall i :: 0 <= i < |flags| ==> |flags[i]| >= 3
    ensures var parts := Bare(flags, first);
      parts != [] && Restore(parts[0], first) == flags[0] && parts[1..] == Bare(flags[1..], false)
  {
    hide Canonical, NoSeparator, IsSpace;
    var f := flags[0];
    CanonicalEnds(f);
    assert f == f[..2] + f[2..];
  }

  lemma {:induction false} ParseBare(flags: seq<string>, first: bool)
    requires AllCanonical(flags) && forall i :: 0 <= i < |flags| ==> |flags[i]| >= 3
    ensures ParseParts(Bare(flags, first), first) == Ok(flags)
    decreases |flags|
  {
    hide Canonical, ParsePart, ParseParts, Bare, Restore, NoSeparator, IsSpace;
    if flags == [] {
      ParseNoParts(first);
      BareNothing(first);
    } else {
      var f := flags[0];
      var parts := Bare(flags, first);
      BareStep(flags, first);
      CanonicalParsesAlone(f);
      ParseBare(flags[1..], false);
      ParsePartsCons(parts, first, f, flags[1..]);
      assert [f] + flags[1..] == flags;
    }
  }

  lemma {:induction false} PrintedLength(flags: seq<string>)
    requires flags != []
    ensures |Join(flags)| + 1 == PrintedWeight(flags)
  {
    if |flags| > 1 {
      PrintedLength(flags[1..]);
    }
  }

  /** Any list of canonical flags is read back from a text that has any commas and white space between
      them. */
  lemma ParseSeparated(flags: seq<string>, gaps: seq<string>)
    requires AllCanonical(flags) && (flags == [] || |gaps| == |flags| - 1) && AllGaps(gaps)
    ensures Parse(JoinWith(flags, gaps)) == Ok(flags)
  {
    if flags != [] {
      hide AllCanonical, IsSpace, ParseParts, Split, AllGaps;
      JoinEnds(flags, gaps);
      var s := JoinWith(flags, gaps);
      assert s[0] == s[..2][0] == '-';
      assert !IsSpace('-') by {
        DashIsNoSpace();
      }
      assert TrimSpace(s) == s;
      SplitJoined(flags, gaps, true);
      ParseBare(flags, true);
    }
  }

  lemma {:induction false} JoinIsOneComma(flags: seq<string>)
    requires flags != []
    ensures Join(flags) == JoinWith(flags, seq(|flags| - 1, i => ","))
  {
    if |flags| > 1 {
      JoinIsOneComma(flags[1..]);
      assert seq(|flags| - 1, i => ",")[1..] == seq(|flags| - 2, i => ",");
    }
  }

  lemma PrintThenParse(flags: seq<string>)
    requires AllCanonical(flags)
    ensures Parse(Join(flags)) == Ok(flags)
  {
    hide Parse, AllCanonical;
    if flags == [] {
      ParseSeparated([], []);
    } else {
      var gaps := seq(|flags| - 1, i => ",");
      assert GapAt(",", 1);
      JoinIsOneComma(flags);
      ParseSeparated(flags, gaps);
    }
  }

  lemma DashIsNoSpace()
    ensures !IsSpace('-')
  {
  }

  /** Printer and parser undo each other on exactly the canonical lists: a list of flags is read
      back unchanged if and only if every one of its flags is canonical. */
  lemma ParsePrintExact(flags: seq<string>)
    ensures Parse(Join(flags)) == Ok(flags) <==> AllCanonical(flags)
  {
    hide Parse, NoSeparator, IsSpace, Join;
    if AllCanonical(flags) {
      PrintThenParse(flags);
    }
    if Parse(Join(flags)) == Ok(flags) && flags != [] {
      ParsedFlagsAreWellFormed(Join(flags));
      PrintedLength(flags);
    }
  }

  // ---------- which texts are accepted ----------

  predicate SomeText(s: string) {
    exists k :: 0 <= k < |s| && !IsSpace(s[k])
  }

  /** A cleaned part gives a flag a name: between `--` and the first `=`, or, without a value, between
      `--` and the first comma. */
  predicate NamesFlag(p: string) {
    && HasPrefix(p, "--")
    && var i, j := IndexOf(p, '='), IndexOf(p, ',');
    if i >= 0 then i > 2 else SomeText(if j >= 2 then p[2..j] else p[2..])
  }

  lemma DashesTrimmed(s: string)
    requires HasPrefix(s, "--")
    ensures TrimSpace(s) == "--" <==> !SomeText(s[2..])
  {
    hide IsSpace, TrimLeft, TrimRight;
    PlainMarks();
    assert s[0] == '-' && s[1] == '-';
    TrimLeftNothing(s);
    TrimRightStops(s, IsSpace, 1);
    TrimRightDrops(s, IsSpace);
    var r := TrimRight(s, IsSpace);
    if SomeText(s[2..]) {
      var k :| 0 <= k < |s[2..]| && !IsSpace(s[2..][k]);
      TrimRightStops(s, IsSpace, k + 2);
    } else {
      forall k | 2 <= k < |s| ensures IsSpace(s[k]) {
        assert s[2..][k - 2] == s[k];
      }
      TrimRightIs(s, IsSpace, 2);
      assert s[..2] == "--";
    }
  }

  lemma ValueNames(p: string)
    requires HasPrefix(p, "--") && '=' in p
    ensures DropJunk(p) == p != "--" && (FlagKey(p) != "--" <==> NamesFlag(p))
  {
    hide SomeText;
    assert p[0] == '-' && p[1] == '-' && p[..2] == "--";
    var i := IndexOf(p, '=');
    assert i >= 2;
    assert p[..i] == "--" <==> i == 2;
  }

  lemma JunkNames(p: string)
    requires HasPrefix(p, "--") && '=' !in p && ',' in p
    ensures DropJunk(p) != "--" && FlagKey(DropJunk(p)) != "--" <==> NamesFlag(p)
  {
    hide SomeText, TrimSpace;
    assert p[0] == '-' && p[1] == '-';
    var j := IndexOf(p, ',');
    assert j >= 2;
    var q := p[..j];
    assert q[0] == '-' && q[1] == '-' && q[..2] == "--";
    assert q[2..] == p[2..j];
    DashesTrimmed(q);
    TrimAddsNothing(q);
    JunkFreeFlag(p, j);
  }

  lemma BareNames(p: string)
    requires HasPrefix(p, "--") && '=' !in p && ',' !in p && !IsSpace(p[|p| - 1])
    ensures DropJunk(p) == p && (p != "--" && FlagKey(p) != "--" <==> NamesFlag(p))
  {
    hide SomeText, TrimSpace;
    LastIsText(p);
  }

  /** What becomes of a part, plainly. */
  lemma PartAccepted(part: string)
    ensures var p := Clean(part);
      && (ParsePart(part).Skip? <==> p == "")
      && (ParsePart(part).Flag? <==> p != "" && NamesFlag(p))
      && (ParsePart(part).Flag? ==> ParsePart(part).flag == DropJunk(p))
  {
    hide Clean, TrimSpace, IsSpace, DropJunk, FlagKey, SomeText;
    var p := Clean(part);
    if p != "" && HasPrefix(p, "--") {
      CleanEndsInText(part);
      if '=' in p {
        ValueNames(p);
      } else if ',' in p {
        JunkNames(p);
        CommaIsMore(p);
      } else {
        BareNames(p);
      }
    }
  }

  lemma CommaIsMore(p: string)
    requires ',' in p
    ensures p != "--"
  {
    assert "--"[0] != ',' && "--"[1] != ',';
  }

  lemma CleanEndsInText(part: string)
    ensures Clean(part) == "" || !IsSpace(Clean(part)[|Clean(part)| - 1])
  {
    hide IsSpace, TrimSpace, TrimRight;
  }

  lemma LastIsText(p: string)
    requires HasPrefix(p, "--") && !IsSpace(p[|p| - 1])
    ensures p == "--" <==> !SomeText(p[2..])
  {
    hide IsSpace;
    if |p| > 2 {
      assert p[2..][|p| - 3] == p[|p| - 1];
    } else {
      assert p == p[..2];
    }
  }

  /** The cleaned parts that hold anything. */
  function Cleaned(parts: seq<string>, first: bool): seq<string> {
    if parts == [] then []
    else
      var p := Clean(Restore(parts[0], first));
      (if p == "" then [] else [p]) + Cleaned(parts[1..], false)
  }

  ghost predicate AllName(texts: seq<string>) {
    forall i :: 0 <= i < |texts| ==> NamesFlag(texts[i])
  }

  /** Each text gives one flag: itself if it has a value or no comma, else what precedes the comma. */
  ghost predicate ReadAs(texts: seq<string>, flags: seq<string>) {
    |flags| == |texts| && forall i :: 0 <= i < |texts| ==> flags[i] == DropJunk(texts[i])
  }

  lemma {:induction false} PartsAccepted(parts: seq<string>, first: bool)
    ensures ParseParts(parts, first).Ok? <==> AllName(Cleaned(parts, first))
    ensures ParseParts(parts, first).Ok? ==> ReadAs(Cleaned(parts, first), ParseParts(parts, first).value)
    decreases |parts|
  {
    hide ParsePart, ParseParts, Cleaned, Clean, NamesFlag, DropJunk, Restore, AllName, ReadAs;
    if parts == [] {
      ParseNoParts(first);
      NothingNamed(first);
    } else {
      var part := Restore(parts[0], first);
      PartAccepted(part);
      PartsAccepted(parts[1..], false);
      ReadStep(parts, first);
      var p, rest := Clean(part), Cleaned(parts[1..], false);
      NamedCons(p, rest);
      if ParsePart(part).Flag? && ParseParts(parts[1..], false).Ok? {
        ReadCons(p, rest, DropJunk(p), ParseParts(parts[1..], false).value);
      }
    }
  }

  lemma NothingNamed(first: bool)
    ensures Cleaned([], first) == [] && AllName([]) && ReadAs([], [])
  {
  }

  lemma ReadStep(parts: seq<string>, first: bool)
    requires parts != []
    ensures var part, tail := Restore(parts[0], first), ParseParts(parts[1..], false);
      && ParseParts(parts, first) == (
        match ParsePart(part)
        case Invalid(text) => Err(text)
        case Skip => tail
        case Flag(f) => if tail.Ok? then Ok([f] + tail.value) else tail)
      && Cleaned(parts, first) ==
        if Clean(part) == "" then Cleaned(parts[1..], false) else [Clean(part)] + Cleaned(parts[1..], false)
  {
    hide ParsePart, Clean, Restore;
    assert [] + Cleaned(parts[1..], false) == Cleaned(parts[1..], false);
  }

  lemma NamedCons(p: string, rest: seq<string>)
    ensures AllName([p] + rest) <==> NamesFlag(p) && AllName(rest)
  {
    hide NamesFlag;
    var texts := [p] + rest;
    assert texts[0] == p && forall i :: 0 <= i < |rest| ==> texts[i + 1] == rest[i];
  }

  lemma ReadCons(p: string, rest: seq<string>, f: string, flags: seq<string>)
    requires ReadAs(rest, flags) && f == DropJunk(p)
    ensures ReadAs([p] + rest, [f] + flags)
  {
    hide DropJunk;
  }

  /** For every text: it is accepted if and only if each of its parts that holds anything names a flag,
      and then each of those parts gives one flag, in order. */
  lemma ParseAcceptsExactly(raw: string)
    ensures var texts := Cleaned(Split(TrimSpace(raw)), true);
      && (Parse(raw).Ok? <==> AllName(texts))
      && (Parse(raw).Ok? ==> ReadAs(texts, Parse(raw).value))
  {
    hide ParseParts, Split, Cleaned, AllName, ReadAs, TrimSpace;
    PartsAccepted(Split(TrimSpace(raw)), true);
    if TrimSpace(raw) == "" {
      NothingToRead();
    }
  }

  lemma NothingToRead()
    ensures Cleaned(Split(""), true) == [] && AllName([]) && ReadAs([], [])
  {
    SplitEmpty();
    assert Clean("") == "" && [""][1..] == [];
  }

  // ---------- which texts leave a trailing comma ----------

  /** The text ends in a comma, one or more spaces, and one or more commas. */
  ghost predicate EndsInSplitCommas(t: string) {
    exists i, j :: SplitCommasAt(t, i, j)
  }

  predicate SplitCommasAt(t: string, i: int, j: int) {
    && 0 <= i && i + 1 < j < |t| && t[i] == ','
    && (forall k :: i < k < j ==> IsSpace(t[k]))
    && (forall k :: j <= k < |t| ==> t[k] == ',')
  }

  /** A part of the variable's text that will keep a trailing comma. */
  ghost predicate KeepsComma(part: string) {
    '=' in part && EndsInSplitCommas(TrimSpace(part))
  }

  /** No part between the separators keeps one: what the author of the variable can check. */
  ghost predicate NoSplitCommas(raw: string) {
    NoneKeepsComma(Split(TrimSpace(raw)))
  }

  ghost predicate NoneKeepsComma(parts: seq<string>) {
    forall i :: 0 <= i < |parts| ==> !KeepsComma(parts[i])
  }

  lemma {:induction false} TrimRightIs(s: string, drop: char -> bool, n: nat)
    requires n <= |s| && (forall k :: n <= k < |s| ==> drop(s[k])) && (n == 0 || !drop(s[n - 1]))
    ensures TrimRight(s, drop) == s[..n]
  {
    if n == |s| {
      assert s[..n] == s;
    } else {
      var t := s[..|s| - 1];
      TrimRightIs(t, drop, n);
      assert t[..n] == s[..n];
    }
  }

  lemma {:induction false} TrimRightDrops(s: string, drop: char -> bool)
    ensures forall k :: |TrimRight(s, drop)| <= k < |s| ==> drop(s[k])
  {
    if s != "" && drop(s[|s| - 1]) {
      TrimRightDrops(s[..|s| - 1], drop);
    }
  }

  lemma {:induction false} TrimLeftKeeps(s: string, drop: char -> bool, i: nat)
    requires i < |s| && !drop(s[i])
    ensures |TrimLeft(s, drop)| >= |s| - i
  {
    if drop(s[0]) {
      TrimLeftKeeps(s[1..], drop, i - 1);
    }
  }

  lemma PlainMarks()
    ensures !IsSpace('=') && !IsSpace(',') && !IsSpace('-')
  {
  }

  lemma TrimLeftNothing(s: string)
    requires s == "" || !IsSpace(s[0])
    ensures TrimLeft(s, IsSpace) == s
  {
  }

  /** Trimming keeps an equals sign. */
  lemma TrimKeepsEquals(s: string)
    requires '=' in s
    ensures '=' in TrimSpace(s) && '=' in TrimRight(s, IsComma) && '=' in TrimRight(s, IsSpace)
  {
    hide IsSpace, TrimLeft, TrimRight;
    PlainMarks();
    var i :| 0 <= i < |s| && s[i] == '=';
    TrimLeftKeeps(s, IsSpace, i);
    var l := TrimLeft(s, IsSpace);
    var j := i - (|s| - |l|);
    assert l[j] == '=';
    TrimRightStops(l, IsSpace, j);
    assert TrimRight(l, IsSpace)[j] == l[j];
    TrimRightStops(s, IsComma, i);
    assert TrimRight(s, IsComma)[i] == s[i];
    TrimRightStops(s, IsSpace, i);
    assert TrimRight(s, IsSpace)[i] == s[i];
  }

  /** Only one run of commas is stripped, so cleaning leaves a trailing comma exactly when another
      one stands before the spaces. */
  lemma CleanEnds(part: string)
    requires '=' in part
    ensures var c := Clean(part);
      '=' in c && (c[|c| - 1] == ',' <==> EndsInSplitCommas(TrimSpace(part)))
  {
    hide TrimSpace, TrimRight, IsSpace, EndsInSplitCommas;
    var t := TrimSpace(part);
    TrimKeepsEquals(part);
    TrimKeepsEquals(t);
    TrimKeepsEquals(TrimRight(t, IsComma));
    StripOnce(t);
  }

  lemma StripOnce(t: string)
    requires t != "" && !IsSpace(t[0]) && !IsSpace(t[|t| - 1]) && TrimRight(t, IsComma) != ""
    ensures var r := TrimSpace(TrimRight(t, IsComma));
      r != "" && (r[|r| - 1] == ',' <==> EndsInSplitCommas(t))
  {
    hide IsSpace, TrimLeft, TrimRight;
    PlainMarks();
    var c := TrimRight(t, IsComma);
    TrimRightDrops(t, IsComma);
    assert c[0] == t[0];
    TrimLeftNothing(c);
    var r := TrimRight(c, IsSpace);
    TrimRightDrops(c, IsSpace);
    TrimRightStops(c, IsSpace, 0);
    if r[|r| - 1] == ',' {
      assert SplitCommasAt(t, |r| - 1, |c|);
    }
    if EndsInSplitCommas(t) {
      var i, j :| SplitCommasAt(t, i, j);
      assert IsSpace(t[j - 1]);
      TrimRightIs(t, IsComma, j);
      TrimRightIs(c, IsSpace, i + 1);
    }
  }

  lemma SuffixDecides(x: string, y: string)
    requires '=' in y
    ensures EndsInSplitCommas(x + y) <==> EndsInSplitCommas(y)
  {
    assert !IsSpace('=');
    hide IsSpace;
    var e :| 0 <= e < |y| && y[e] == '=';
    var s := x + y;
    assert s[|x| + e] == '=';
    assert forall k :: 0 <= k < |y| ==> s[|x| + k] == y[k];
    if EndsInSplitCommas(s) {
      var i, j :| SplitCommasAt(s, i, j);
      assert i > |x| + e;
      assert forall k :: |x| <= k < |s| ==> s[k] == y[k - |x|];
      assert SplitCommasAt(y, i - |x|, j - |x|);
    }
    if EndsInSplitCommas(y) {
      var i, j :| SplitCommasAt(y, i, j);
      assert forall k :: |x| <= k < |s| ==> s[k] == y[k - |x|];
      assert SplitCommasAt(s, i + |x|, j + |x|);
    }
  }

  lemma TrimRightSuffix(x: string, y: string)
    requires TrimRight(y, IsSpace) != ""
    ensures TrimRight(x + y, IsSpace) == x + TrimRight(y, IsSpace)
  {
    hide IsSpace;
    var r := TrimRight(y, IsSpace);
    TrimRightDrops(y, IsSpace);
    TrimRightIs(x + y, IsSpace, |x| + |r|);
  }

  lemma TrimmedEnd(part: string)
    requires '=' in part
    ensures EndsInSplitCommas(TrimSpace(part)) <==> EndsInSplitCommas(TrimRight(part, IsSpace))
  {
    hide IsSpace, EndsInSplitCommas, TrimLeft, TrimRight;
    var l := TrimLeft(part, IsSpace);
    var space := part[..|part| - |l|];
    assert part == space + l;
    TrimKeepsEquals(part);
    TrimRightSuffix(space, l);
    SuffixDecides(space, TrimRight(l, IsSpace));
  }

  lemma DashedEnd(part: string)
    requires '=' in part
    ensures EndsInSplitCommas(TrimRight("--" + part, IsSpace)) <==> EndsInSplitCommas(TrimRight(part, IsSpace))
  {
    hide IsSpace, EndsInSplitCommas, TrimRight;
    TrimKeepsEquals(part);
    TrimRightSuffix("--", part);
    SuffixDecides("--", TrimRight(part, IsSpace));
  }

  /** Putting the `--` back does not change what a part ends in. */
  lemma RestoredKeepsComma(part: string, first: bool)
    ensures KeepsComma(Restore(part, first)) <==> KeepsComma(part)
  {
    hide IsSpace, EndsInSplitCommas, TrimSpace, TrimRight;
    var full := "--" + part;
    assert forall k :: 0 <= k < |part| ==> full[k + 2] == part[k];
    assert '=' in full <==> '=' in part;
    if '=' in part {
      TrimmedEnd(part);
      TrimmedEnd(full);
      DashedEnd(part);
    }
  }

  /** What one part becomes. */
  lemma PartEnds(part: string)
    requires NoSeparator(part)
    ensures '=' in part ==> ParsePart(part) != Skip
    ensures ParsePart(part).Flag? ==>
      var f := ParsePart(part).flag; f != "" && (f[|f| - 1] == ',' <==> KeepsComma(part))
  {
    hide Clean, NoSeparator, IsSpace, FlagKey, EndsInSplitCommas, TrimSpace;
    if '=' in part {
      CleanEnds(part);
    } else if ParsePart(part).Flag? {
      CleanAddsNothing(part);
      ParsedPartIsWellFormed(part);
      hide WellFormed;
      var p := Clean(part);
      var j := IndexOf(p, ',');
      if j >= 0 {
        JunkFreeFlag(p, j);
      }
    }
  }

  lemma CleanAddsNothing(part: string)
    requires '=' !in part
    ensures '=' !in Clean(part)
  {
    hide TrimSpace, TrimRight;
    TrimAddsNothing(part);
    var t := TrimSpace(part);
    var c := TrimRight(t, IsComma);
    assert forall k :: 0 <= k < |c| ==> c[k] == t[k];
    TrimAddsNothing(c);
  }

  lemma TrimAddsNothing(s: string)
    requires '=' !in s
    ensures '=' !in TrimSpace(s)
  {
    hide IsSpace, TrimLeft, TrimRight;
    var l := TrimLeft(s, IsSpace);
    var r := TrimRight(l, IsSpace);
    assert forall k :: 0 <= k < |r| ==> r[k] == l[k] && l[k] == s[|s| - |l| + k];
  }

  lemma {:induction false} PartsEnd(parts: seq<string>, first: bool)
    requires AllNoSeparator(parts) && ParseParts(parts, first).Ok?
    ensures NoTrailingComma(ParseParts(parts, first).value) <==> NoneKeepsComma(parts)
    decreases |parts|
  {
    hide NoSeparator, ParsePart, Restore, KeepsComma;
    if parts != [] {
      var part := Restore(parts[0], first);
      RestoredHasNoSeparator(parts[0], first);
      RestoredKeepsComma(parts[0], first);
      PartEnds(part);
      PartsEnd(parts[1..], false);
      var tail := ParseParts(parts[1..], false);
      assert parts == [parts[0]] + parts[1..];
      assert NoneKeepsComma(parts) <==> !KeepsComma(part) && NoneKeepsComma(parts[1..]);
      match ParsePart(part) {
        case Skip =>
          assert ParseParts(parts, first) == tail;
          NoEqualsKeepsNothing(part);
        case Flag(f) =>
          TrailingCons(f, tail.value);
        case Invalid(_) =>
      }
    }
  }

  lemma NoEqualsKeepsNothing(part: string)
    requires '=' !in part
    ensures !KeepsComma(part)
  {
  }

  lemma TrailingCons(f: string, rest: seq<string>)
    ensures NoTrailingComma([f] + rest) <==> (f == "" || f[|f| - 1] != ',') && NoTrailingComma(rest)
  {
    var all := [f] + rest;
    assert forall i :: 0 <= i < |rest| ==> all[i + 1] == rest[i];
    assert all[0] == f;
  }

  /** For every text that parses: no flag keeps a trailing comma if and only if no part of the text
      that has a value ends, once trimmed, in a comma, spaces and commas. */
  lemma TrailingCommaExact(raw: string)
    requires Parse(raw).Ok?
    ensures NoTrailingComma(Parse(raw).value) <==> NoSplitCommas(raw)
  {
    hide ParseParts, Split, NoTrailingComma, KeepsComma, TrimSpace;
    var s := TrimSpace(raw);
    if s == "" {
      SplitEmpty();
      NoEqualsKeepsNothing("");
      NothingTrails();
    } else {
      PartsHaveNoSeparator(s);
      PartsEnd(Split(s), true);
    }
  }

  lemma NothingTrails()
    ensures NoTrailingComma([])
  {
  }

  /** Re-reading what was read: printing the result of a parse and parsing it again changes nothing
      if and only if no part of the original text ends in split commas. */
  lemma ParseFixpoint(raw: string)
    requires Parse(raw).Ok?
    ensures var flags := Parse(raw).value;
      Parse(Join(flags)) == Ok(flags) <==> NoSplitCommas(raw)
  {
    hide Parse, NoSplitCommas;
    ParsedFlagsAreWellFormed(raw);
    ParsePrintExact(Parse(raw).value);
    TrailingCommaExact(raw);
  }

  /** A text for every flag with a value: followed by `, ,` it keeps one comma. */
  lemma TrailingCommaSurvives(f: string)
    requires Canonical(f) && '=' in f
    ensures Parse(f + ", ,") == Ok([f + ","])
    ensures !NoTrailingComma([f + ","])
  {
    hide Canonical, IsSpace, Split, ParsePart, ParseParts, TrimSpace, IsRegexSpace, NoSeparator;
    CanonicalEnds(f);
    CanonicalIsSeparatorFree(f);
    var raw := f + ", ,";
    SplitJunk();
    assert !IsRegexSpace(f[|f| - 1]) by {
      RegexSpaceIsSpace(f[|f| - 1]);
    }
    SplitAfter(f, ", ,");
    TrimNothing(raw);
    TrailingCommaFlag(f);
    ParseOnePart(raw);
    assert Split(raw) == [raw];
    assert [f + ","][0][|f|] == ',';
  }

  lemma ParseOnePart(part: string)
    requires ParsePart(part).Flag?
    ensures ParseParts([part], true) == Ok([ParsePart(part).flag])
  {
    hide ParsePart;
    var f := ParsePart(part).flag;
    assert [part][1..] == [] && [f] + [] == [f];
  }

  lemma RegexSpaceIsSpace(c: char)
    ensures IsRegexSpace(c) ==> IsSpace(c)
  {
  }

  lemma TrimNothing(s: string)
    requires |s| > 0 && s[0] == '-' && (s[|s| - 1] == ',' || !IsSpace(s[|s| - 1]))
    ensures TrimSpace(s) == s
  {
    assert !IsSpace('-') && !IsSpace(',');
    hide *;
  }

  lemma SplitJunk()
    ensures Split(", ,") == [", ,"]
  {
    assert ", ,"[1..] == " ," && " ,"[1..] == ",";
    assert Split(",") == [","] by {
      SplitStep(",");
      assert ","[1..] == "" && [','] + "" == ",";
    }
    SplitStep(" ,");
    assert [' '] + "," == " ,";
    SplitStep(", ,");
    assert [','] + " ," == ", ,";
  }

  lemma TrailingCommaFlag(f: string)
    requires Canonical(f) && '=' in f
    ensures ParsePart(f + ", ,") == Flag(f + ",")
  {
    hide NoSeparator, IsSpace;
    hide TrimSpace, TrimRight, FlagKey;
    CanonicalEnds(f);
    var raw, g := f + ", ,", f + ",";
    assert f[0] == f[..2][0] == '-';
    TrimNothing(raw);
    TrimOneComma(g + " ");
    assert g + " " + "," == raw;
    TrimOneSpace(g);
    hide Clean;
    assert g[..2] == f[..2];
    assert g[|g| - 1] == ',' && g != "--";
    assert g[IndexOf(f, '=')] == '=';
    NamePrecedesComma(f);
  }

  lemma TrimOneComma(s: string)
    requires s != "" && s[|s| - 1] != ','
    ensures TrimRight(s + ",", IsComma) == s
  {
    assert (s + ",")[..|s|] == s;
  }

  lemma TrimOneSpace(g: string)
    requires |g| > 0 && g[0] == '-' && g[|g| - 1] == ','
    ensures TrimSpace(g + " ") == g
  {
    assert IsSpace(' ') && !IsSpace('-') && !IsSpace(',');
    hide IsSpace;
    var t := g + " ";
    assert t[..|t| - 1] == g;
    assert TrimLeft(t, IsSpace) == t;
    assert TrimRight(g, IsSpace) == g;
  }

  lemma NamePrecedesComma(f: string)
    requires HasPrefix(f, "--") && '=' in f
    ensures FlagKey(f + ",") == FlagKey(f)
  {
    var i := IndexOf(f, '=');
    var g := f + ",";
    var k := IndexOf(g, '=');
    assert g[i] == '=';
    assert g[..i] == f[..i];
    assert k <= i;
    assert g[k] == '=' && f[k] == '=';
    assert k == i;
    assert HasPrefix(g, "--");
  }
}
