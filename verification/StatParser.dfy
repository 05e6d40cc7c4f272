/** Parsing one line of /proc/[pid]/stat, whose second field is a process name in parentheses that
    may itself contain spaces and parentheses
    (internal/infrastructure/collector/linux/procfs.go, parseStat). */
module StatParser {
  import opened Decimals

  datatype ProcessStat = ProcessStat(
    pid: int, comm: string, state: char,
    ppid: int, pgrp: int, session: int, ttyNr: int, tpgid: int,
    flags: int, minflt: int, cminflt: int, majflt: int, cmajflt: int, utime: int, stime: int,
    cutime: int, cstime: int, priority: int, nice: int, numThreads: int,
    vsize: int, rss: int)

  /** Slicing out of bounds panics. */
  datatype Outcome = Parsed(stat: ProcessStat) | NoParentheses | BadPid | TooFewFields | Panics

  function IndexOf(s: string, c: char): (i: int)
    ensures -1 <= i < |s|
    ensures i == -1 <==> c !in s
    ensures i >= 0 ==> s[i] == c && c !in s[..i]
  {
    if s == [] then -1
    else if s[0] == c then 0
    else
      var i := IndexOf(s[1..], c);
      assert i >= 0 ==> s[..i + 1] == [s[0]] + s[1..][..i];
      if i == -1 then -1 else i + 1
  }

  function LastIndexOf(s: string, c: char): (i: int)
    ensures -1 <= i < |s|
    ensures i == -1 <==> c !in s
    ensures i >= 0 ==> s[i] == c && c !in s[i + 1..]
  {
    if s == [] then -1
    else if s[|s| - 1] == c then |s| - 1
    else
      var i := LastIndexOf(s[..|s| - 1], c);
      assert s == s[..|s| - 1] + [s[|s| - 1]];
      assert i >= 0 ==> s[i + 1..] == s[..|s| - 1][i + 1..] + [s[|s| - 1]];
      i
  }

  predicate IsSpace(c: char) {
    c == ' ' || c == '\t' || c == '\n' || c == '\r' || c as int == 11 || c as int == 12
  }

  function WordLength(s: string): (n: nat)
    ensures n <= |s| && forall i :: 0 <= i < n ==> !IsSpace(s[i])
    ensures n < |s| ==> IsSpace(s[n])
  {
    if s == [] || IsSpace(s[0]) then 0 else 1 + WordLength(s[1..])
  }

  /** strings.Fields: the maximal runs of characters that are not white space. */
  function Fields(s: string): (r: seq<string>)
    ensures forall i :: 0 <= i < |r| ==> r[i] != []
    decreases |s|
  {
    if s == [] then []
    else if IsSpace(s[0]) then Fields(s[1..])
    else [s[..WordLength(s)]] + Fields(s[WordLength(s)..])
  }

  function Int(s: string): int {
    ParseInt(s).value
  }

  function Uint(s: string, bits: nat): int {
    ParseUint(s, bits).value
  }

  /** The record built from the fields after the name; conversion errors are ignored. */
  function StatOf(pid: int, comm: string, f: seq<string>): ProcessStat
    requires |f| >= 20
  {
    ProcessStat(
      pid, comm, if |f[0]| > 0 then f[0][0] else 0 as char,
      Int(f[1]), Int(f[2]), Int(f[3]), Int(f[4]), Int(f[5]),
      Uint(f[6], 32), Uint(f[7], 64), Uint(f[8], 64), Uint(f[9], 64), Uint(f[10], 64), Uint(f[11], 64), Uint(f[12], 64),
      Int(f[13]), Int(f[14]), Int(f[15]), Int(f[16]), Int(f[17]),
      if |f| > 20 then Uint(f[20], 64) else 0,
      if |f| > 21 then Int(f[21]) else 0)
  }

  function ParseStat(stat: string): Outcome {
    var lastParen := LastIndexOf(stat, ')');
    if lastParen == -1 then NoParentheses else
    var firstParen := IndexOf(stat, '(');
    if firstParen == -1 then NoParentheses else
    if firstParen + 1 > lastParen then Panics else
    var comm := stat[firstParen + 1..lastParen];
    if firstParen - 1 < 0 then Panics else
    var pid := ParseInt(stat[..firstParen - 1]);
    if !pid.Ok() then BadPid else
    if lastParen + 2 > |stat| then Panics else
    var fields := Fields(stat[lastParen + 2..]);
    if |fields| < 20 then TooFewFields else
    Parsed(StatOf(pid.value, comm, fields))
  }

  // ---- Lines on which parsing panics ----

  predicate AllClosedBeforeOpened(s: string) {
    forall i, j :: 0 <= i < |s| && 0 <= j < |s| && s[i] == '(' && s[j] == ')' ==> j < i
  }

  /** The text before the first opening parenthesis, less one character, is a number. */
  predicate PidReads(s: string) {
    exists open :: 0 < open < |s| && s[open] == '(' && '(' !in s[..open] && ParseInt(s[..open - 1]).Ok()
  }

  /** Over all strings: parsing panics exactly when both parentheses occur and every closing one comes
      before every opening one, or the line starts with an opening one, or the line ends in a closing
      one and the pid reads. */
  lemma {:induction false} PanicsIff(s: string)
    ensures ParseStat(s) == Panics <==>
            && '(' in s && ')' in s
            && (AllClosedBeforeOpened(s) || s[0] == '(' || (s[|s| - 1] == ')' && PidReads(s)))
  {
    var first, last := IndexOf(s, '('), LastIndexOf(s, ')');
    hide IndexOf, LastIndexOf, ParseInt, Fields, StatOf;
    if first >= 0 && last >= 0 {
      PositionsDecide(s, first, last);
    }
  }

  /** Over all strings: which of the two early errors is reported, and when. */
  lemma {:induction false} EarlyErrorsIff(s: string)
    ensures ParseStat(s) == NoParentheses <==> '(' !in s || ')' !in s
    ensures ParseStat(s) == BadPid <==>
            '(' in s && ')' in s && !AllClosedBeforeOpened(s) && s[0] != '(' && !PidReads(s)
  {
    var first, last := IndexOf(s, '('), LastIndexOf(s, ')');
    hide IndexOf, LastIndexOf, ParseInt, Fields, StatOf;
    if first >= 0 && last >= 0 {
      PositionsDecide(s, first, last);
    }
  }

  lemma ReversedParenthesesPanic()
    ensures ParseStat(")(") == Panics
  {
    var s := ")(";
    assert s[0] == ')' && s[1] == '(';
    assert AllClosedBeforeOpened(s);
    PanicsIff(s);
  }

  lemma {:induction false} PositionsDecide(s: string, first: nat, last: nat)
    requires first < |s| && s[first] == '(' && '(' !in s[..first]
    requires last < |s| && s[last] == ')' && ')' !in s[last + 1..]
    ensures AllClosedBeforeOpened(s) <==> last < first
    ensures s[0] == '(' <==> first == 0
    ensures s[|s| - 1] == ')' <==> last == |s| - 1
    ensures PidReads(s) <==> first > 0 && ParseInt(s[..first - 1]).Ok()
  {
    hide ParseInt;
    assert forall i :: 0 <= i < first ==> s[i] == s[..first][i] && s[i] != '(';
    assert forall j :: last < j < |s| ==> s[j] == s[last + 1..][j - last - 1] && s[j] != ')';
    assert forall open :: first < open < |s| ==> s[..open][first] == '(';
  }

  // ---- The layout of proc_pid_stat(5) ----

  /** A field after the name: not empty, no white space, no closing parenthesis. */
  predicate Token(s: string) {
    s != [] && forall i :: 0 <= i < |s| ==> !IsSpace(s[i]) && s[i] != ')'
  }

  predicate AllTokens(tokens: seq<string>) {
    forall i :: 0 <= i < |tokens| ==> Token(tokens[i])
  }

  function Joined(tokens: seq<string>): string {
    if tokens == [] then "" else if |tokens| == 1 then tokens[0] else tokens[0] + " " + Joined(tokens[1..])
  }

  function Line(pid: int, comm: string, tokens: seq<string>, trailer: string): string {
    Itoa(pid) + " (" + comm + ") " + Joined(tokens) + trailer
  }

  lemma {:induction false} WordLengthOf(word: string, rest: string)
    requires forall i :: 0 <= i < |word| ==> !IsSpace(word[i])
    requires rest == [] || IsSpace(rest[0])
    ensures WordLength(word + rest) == |word|
  {
    if word == [] {
      assert word + rest == rest;
    } else {
      assert (word + rest)[1..] == word[1..] + rest;
      WordLengthOf(word[1..], rest);
    }
  }

  lemma {:induction false} FieldsOfSpaces(s: string)
    requires forall i :: 0 <= i < |s| ==> IsSpace(s[i])
    ensures Fields(s) == []
  {
    if s != [] {
      FieldsOfSpaces(s[1..]);
    }
  }

  lemma {:induction false} FieldsFirst(word: string, rest: string)
    requires word != [] && forall i :: 0 <= i < |word| ==> !IsSpace(word[i])
    requires rest == [] || IsSpace(rest[0])
    ensures Fields(word + rest) == [word] + Fields(rest)
  {
    WordLengthOf(word, rest);
    assert (word + rest)[..|word|] == word && (word + rest)[|word|..] == rest;
  }

  lemma {:induction false} FieldsOfJoined(tokens: seq<string>, trailer: string)
    requires AllTokens(tokens)
    requires forall i :: 0 <= i < |trailer| ==> IsSpace(trailer[i])
    ensures Fields(Joined(tokens) + trailer) == tokens
  {
    if tokens == [] {
      assert Joined(tokens) + trailer == trailer;
      FieldsOfSpaces(trailer);
    } else if |tokens| == 1 {
      FieldsFirst(tokens[0], trailer);
      FieldsOfSpaces(trailer);
      assert tokens == [tokens[0]];
    } else {
      var more := Joined(tokens[1..]) + trailer;
      assert Joined(tokens) + trailer == tokens[0] + (" " + more);
      FieldsFirst(tokens[0], " " + more);
      assert (" " + more)[1..] == more;
      FieldsOfJoined(tokens[1..], trailer);
    }
  }

  /** Only the six ASCII white-space codes. */
  predicate Blank(s: string) {
    forall i :: 0 <= i < |s| ==> s[i] as int in {9, 10, 11, 12, 13, 32}
  }

  predicate Word(s: string) {
    s != [] && forall i :: 0 <= i < |s| ==> s[i] as int !in {9, 10, 11, 12, 13, 32}
  }

  /** Words with a gap before each and one after the last. */
  function Spread(words: seq<string>, gaps: seq<string>): string
    requires |gaps| == |words| + 1
  {
    if words == [] then gaps[0] else gaps[0] + (words[0] + Spread(words[1..], gaps[1..]))
  }

  lemma {:induction false} FieldsSkip(gap: string, rest: string)
    requires Blank(gap)
    ensures Fields(gap + rest) == Fields(rest)
  {
    if gap == [] {
      assert gap + rest == rest;
    } else {
      assert (gap + rest)[1..] == gap[1..] + rest;
      FieldsSkip(gap[1..], rest);
    }
  }

  /** Splitting finds the words, whatever white space lies between and around them. */
  lemma {:induction false} FieldsOfSpread(words: seq<string>, gaps: seq<string>)
    requires |gaps| == |words| + 1
    requires forall i :: 0 <= i < |words| ==> Word(words[i])
    requires forall i :: 0 <= i < |gaps| ==> Blank(gaps[i])
    requires forall i :: 0 < i < |words| ==> gaps[i] != []
    ensures Fields(Spread(words, gaps)) == words
    decreases |words|
  {
    if words == [] {
      assert gaps[0] + [] == gaps[0];
      FieldsSkip(gaps[0], []);
    } else {
      var rest := Spread(words[1..], gaps[1..]);
      assert rest == [] || IsSpace(rest[0]) by {
        assert Blank(gaps[1]);
      }
      FieldsSkip(gaps[0], words[0] + rest);
      assert Word(words[0]);
      FieldsFirst(words[0], rest);
      FieldsOfSpread(words[1..], gaps[1..]);
    }
  }

  lemma {:induction false} JoinedHasNoParen(tokens: seq<string>)
    requires AllTokens(tokens)
    ensures ')' !in Joined(tokens)
  {
    if |tokens| > 1 {
      JoinedHasNoParen(tokens[1..]);
    }
  }

  lemma {:induction false} IndexAfter(before: string, c: char, after: string)
    requires c !in before
    ensures IndexOf(before + [c] + after, c) == |before|
  {
    if before != [] {
      assert (before + [c] + after)[1..] == before[1..] + [c] + after;
      IndexAfter(before[1..], c, after);
    }
  }

  lemma {:induction false} LastIndexBefore(before: string, c: char, after: string)
    requires c !in after
    ensures LastIndexOf(before + [c] + after, c) == |before|
  {
    var s := before + [c] + after;
    if after != [] {
      var shorter := after[..|after| - 1];
      assert s[..|s| - 1] == before + [c] + shorter;
      LastIndexBefore(before, c, shorter);
    }
  }

  lemma ItoaHasNo(n: int, c: char)
    requires !IsDigit(c) && c != '-'
    ensures c !in Itoa(n)
  {
  }

  lemma OpeningFound(pid: int, comm: string, rest: string)
    ensures var line, open := Itoa(pid) + " (" + comm + rest, |Itoa(pid)| + 1;
      IndexOf(line, '(') == open && line[..open - 1] == Itoa(pid)
  {
    hide Itoa, IndexOf;
    ItoaHasNo(pid, '(');
    assert Itoa(pid) + " (" + comm + rest == (Itoa(pid) + " ") + ['('] + (comm + rest);
    IndexAfter(Itoa(pid) + " ", '(', comm + rest);
  }

  lemma ClosingFound(before: string, rest: string)
    requires ')' !in rest
    ensures var line := before + ") " + rest;
      LastIndexOf(line, ')') == |before| && |line| >= |before| + 2 && line[|before| + 2..] == rest
  {
    hide LastIndexOf;
    assert before + ") " + rest == before + [')'] + (" " + rest);
    LastIndexBefore(before, ')', " " + rest);
  }

  lemma ParensFound(pid: int, comm: string, rest: string)
    requires ')' !in rest
    ensures var line, open := Itoa(pid) + " (" + comm + ") " + rest, |Itoa(pid)| + 1;
      && IndexOf(line, '(') == open && LastIndexOf(line, ')') == open + 1 + |comm|
      && |line| >= open + 3 + |comm|
      && line[..open - 1] == Itoa(pid) && line[open + 1..open + 1 + |comm|] == comm
      && line[open + 3 + |comm|..] == rest
  {
    hide Itoa, IndexOf, LastIndexOf;
    var before := Itoa(pid) + " (" + comm;
    assert before + ") " + rest == Itoa(pid) + " (" + comm + (") " + rest);
    OpeningFound(pid, comm, ") " + rest);
    ClosingFound(before, rest);
  }

  lemma TailHasNoParen(tokens: seq<string>, trailer: string)
    requires AllTokens(tokens)
    requires forall i :: 0 <= i < |trailer| ==> IsSpace(trailer[i])
    ensures ')' !in Joined(tokens) + trailer
  {
    JoinedHasNoParen(tokens);
  }

  /** On every line in the layout, whatever the name contains, parsing finds exactly the pid, the
      name and the fields; with fewer than twenty fields it reports so; it never panics. */
  lemma {:induction false} ParseOfLayout(pid: int, comm: string, tokens: seq<string>, trailer: string)
    requires 0 - Pow2(63) <= pid < Pow2(63)
    requires AllTokens(tokens)
    requires forall i :: 0 <= i < |trailer| ==> IsSpace(trailer[i])
    ensures ParseStat(Line(pid, comm, tokens, trailer)) ==
            if |tokens| < 20 then TooFewFields else Parsed(StatOf(pid, comm, tokens))
  {
    hide IndexOf, LastIndexOf, ParseInt, Fields, Itoa, Pow2, Token, IsSpace, Joined, StatOf;
    TailHasNoParen(tokens, trailer);
    ParensFound(pid, comm, Joined(tokens) + trailer);
    assert Line(pid, comm, tokens, trailer) == Itoa(pid) + " (" + comm + ") " + (Joined(tokens) + trailer);
    ParseIntItoa(pid);
    FieldsOfJoined(tokens, trailer);
  }

  // ---- Round trip of a whole record ----

  predicate FitsInt(n: int) {
    0 - Pow2(63) <= n < Pow2(63)
  }

  predicate FitsUint(n: int, bits: nat) {
    0 <= n < Pow2(bits)
  }

  predicate Fits(s: ProcessStat) {
    && !IsSpace(s.state) && s.state != ')'
    && FitsInt(s.pid) && FitsInt(s.ppid) && FitsInt(s.pgrp)
    && FitsInt(s.session) && FitsInt(s.ttyNr) && FitsInt(s.tpgid)
    && FitsUint(s.flags, 32)
    && FitsUint(s.minflt, 64) && FitsUint(s.cminflt, 64) && FitsUint(s.majflt, 64) && FitsUint(s.cmajflt, 64)
    && FitsUint(s.utime, 64) && FitsUint(s.stime, 64)
    && FitsInt(s.cutime) && FitsInt(s.cstime) && FitsInt(s.priority) && FitsInt(s.nice) && FitsInt(s.numThreads)
    && FitsUint(s.vsize, 64) && FitsInt(s.rss)
  }

  function Printed(numbers: seq<int>): (r: seq<string>)
    ensures |r| == |numbers| && forall i :: 0 <= i < |r| ==> r[i] == Itoa(numbers[i])
  {
    seq(|numbers|, i requires 0 <= i < |numbers| => Itoa(numbers[i]))
  }

  /** The fields after the name, in the kernel's order; the two that are skipped and whatever
      follows the resident set size are arbitrary. */
  function TokensOf(s: ProcessStat, itrealvalue: string, starttime: string, more: seq<string>): seq<string> {
    [[s.state]] +
    Printed([s.ppid, s.pgrp, s.session, s.ttyNr, s.tpgid, s.flags, s.minflt, s.cminflt, s.majflt, s.cmajflt,
             s.utime, s.stime, s.cutime, s.cstime, s.priority, s.nice, s.numThreads]) +
    [itrealvalue, starttime] + Printed([s.vsize, s.rss]) + more
  }

  lemma PrintedAreTokens(numbers: seq<int>)
    ensures AllTokens(Printed(numbers))
  {
    hide Token, Itoa;
    forall n: int ensures Token(Itoa(n)) { ItoaIsToken(n); }
  }

  lemma ItoaIsToken(n: int)
    ensures Token(Itoa(n))
  {
  }

  lemma TokensOfAreTokens(s: ProcessStat, itrealvalue: string, starttime: string, more: seq<string>)
    requires !IsSpace(s.state) && s.state != ')'
    requires Token(itrealvalue) && Token(starttime) && AllTokens(more)
    ensures AllTokens(TokensOf(s, itrealvalue, starttime, more))
  {
    assert Token([s.state]);
    hide Token, Itoa, Printed;
    forall numbers ensures AllTokens(Printed(numbers)) { PrintedAreTokens(numbers); }
  }

  lemma StatOfTokens(s: ProcessStat, itrealvalue: string, starttime: string, more: seq<string>)
    requires Fits(s)
    ensures StatOf(s.pid, s.comm, TokensOf(s, itrealvalue, starttime, more)) == s
  {
    hide ParseInt, ParseUint, Itoa, Pow2, IsSpace;
    forall n: int | FitsInt(n) ensures Int(Itoa(n)) == n { ParseIntItoa(n); }
    forall n: int, bits: nat | FitsUint(n, bits) ensures Uint(Itoa(n), bits) == n { ParseUintItoa(n, bits); }
  }

  /** Every record whose values fit their Go types comes back from its line, for every name. */
  lemma {:induction false} RoundTrip(
      s: ProcessStat, itrealvalue: string, starttime: string, more: seq<string>, trailer: string)
    requires Fits(s)
    requires Token(itrealvalue) && Token(starttime) && AllTokens(more)
    requires forall i :: 0 <= i < |trailer| ==> IsSpace(trailer[i])
    ensures ParseStat(Line(s.pid, s.comm, TokensOf(s, itrealvalue, starttime, more), trailer)) == Parsed(s)
  {
    hide Token, ParseStat, Line, StatOf;
    TokensOfAreTokens(s, itrealvalue, starttime, more);
    StatOfTokens(s, itrealvalue, starttime, more);
    ParseOfLayout(s.pid, s.comm, TokensOf(s, itrealvalue, starttime, more), trailer);
  }

  lemma ShortStatOf(s: ProcessStat, itrealvalue: string, starttime: string, count: nat)
    requires Fits(s) && 20 <= count <= 21
    ensures StatOf(s.pid, s.comm, TokensOf(s, itrealvalue, starttime, [])[..count])
         == s.(vsize := if count == 21 then s.vsize else 0, rss := 0)
  {
    hide ParseInt, ParseUint, Itoa, Pow2, IsSpace;
    forall n: int | FitsInt(n) ensures Int(Itoa(n)) == n { ParseIntItoa(n); }
    forall n: int, bits: nat | FitsUint(n, bits) ensures Uint(Itoa(n), bits) == n { ParseUintItoa(n, bits); }
  }

  /** A line that ends before the memory fields gives zero for those it lacks. */
  lemma {:induction false} ShortRoundTrip(
      s: ProcessStat, itrealvalue: string, starttime: string, count: nat, trailer: string)
    requires Fits(s) && Token(itrealvalue) && Token(starttime) && 20 <= count <= 21
    requires forall i :: 0 <= i < |trailer| ==> IsSpace(trailer[i])
    ensures ParseStat(Line(s.pid, s.comm, TokensOf(s, itrealvalue, starttime, [])[..count], trailer))
         == Parsed(s.(vsize := if count == 21 then s.vsize else 0, rss := 0))
  {
    hide Token, ParseStat, Line, StatOf;
    TokensOfAreTokens(s, itrealvalue, starttime, []);
    ShortStatOf(s, itrealvalue, starttime, count);
    ParseOfLayout(s.pid, s.comm, TokensOf(s, itrealvalue, starttime, [])[..count], trailer);
  }

  /** The line as the kernel writes it: the fields of the record, those after it, and a line feed. */
  lemma {:induction false} KernelLineParses(s: ProcessStat, itrealvalue: string, starttime: string, more: seq<string>)
    requires Fits(s) && Token(itrealvalue) && Token(starttime) && AllTokens(more)
    ensures ParseStat(Line(s.pid, s.comm, TokensOf(s, itrealvalue, starttime, more), "\n")) == Parsed(s)
  {
    RoundTrip(s, itrealvalue, starttime, more, "\n");
  }
}
