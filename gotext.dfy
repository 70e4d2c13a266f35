/**
  The parts of Go's `strings`, `strconv`, `fmt` and `bufio` packages that the
  TOON codec relies on, restricted to ASCII: `unicode.IsSpace` is modelled on
  its six ASCII members only.
 */
module GoText {
  import opened Wrappers

  const MinInt64: int := -0x8000_0000_0000_0000
  const MaxInt64: int := 0x7fff_ffff_ffff_ffff

  /** Go's `int` on a 64-bit platform. */
  predicate InInt64(n: int) { MinInt64 <= n <= MaxInt64 }

  /** The ASCII members of `unicode.IsSpace`: space, \t, \n, \v, \f, \r. */
  predicate IsSpace(c: char) {
    c == ' ' || c == '\t' || c == '\n' || c == '\U{B}' || c == '\U{C}' || c == '\r'
  }

  predicate IsDigit(c: char) { '0' <= c <= '9' }

  /** `strings.ContainsAny(s, chars)`. */
  predicate ContainsAny(s: string, chars: set<char>) {
    exists i :: 0 <= i < |s| && s[i] in chars
  }

  predicate HasPrefix(s: string, p: string) { |p| <= |s| && s[..|p|] == p }

  predicate HasSuffix(s: string, p: string) { |p| <= |s| && s[|s| - |p|..] == p }

  /** `strings.CutPrefix(s, p)`, keeping only the string result. */
  function CutPrefix(s: string, p: string): (r: string)
    ensures HasPrefix(s, p) ==> s == p + r
    ensures !HasPrefix(s, p) ==> r == s
  {
    if HasPrefix(s, p) then s[|p|..] else s
  }

  /** `strings.CutSuffix(s, p)`, keeping only the string result. */
  function CutSuffix(s: string, p: string): (r: string)
    ensures HasSuffix(s, p) ==> s == r + p
    ensures !HasSuffix(s, p) ==> r == s
  {
    if HasSuffix(s, p) then s[..|s| - |p|] else s
  }

  /** The leading run of white space that `strings.TrimSpace` removes. */
  function LeadingSpace(s: string): (r: string)
    ensures |r| <= |s|
  {
    if |s| > 0 && IsSpace(s[0]) then [s[0]] + LeadingSpace(s[1..]) else ""
  }

  /** The leading run is a prefix of white space followed by a non-space or the end. */
  lemma {:induction false} LeadingSpaceRun(s: string)
    ensures var r := LeadingSpace(s);
      HasPrefix(s, r) && (forall i :: 0 <= i < |r| ==> IsSpace(r[i])) && (|r| < |s| ==> !IsSpace(s[|r|]))
  {
    if |s| > 0 && IsSpace(s[0]) {
      LeadingSpaceRun(s[1..]);
      assert LeadingSpace(s) == [s[0]] + LeadingSpace(s[1..]);
    }
  }

  /** The trailing run of white space that `strings.TrimSpace` removes. */
  function TrailingSpace(s: string): (r: string)
    ensures |r| <= |s|
  {
    if |s| > 0 && IsSpace(s[|s| - 1]) then TrailingSpace(s[..|s| - 1]) + [s[|s| - 1]] else ""
  }

  /** The trailing run is a suffix of white space preceded by a non-space or the start. */
  lemma {:induction false} TrailingSpaceRun(s: string)
    ensures var r := TrailingSpace(s);
      HasSuffix(s, r) && (forall i :: 0 <= i < |r| ==> IsSpace(r[i])) && (|r| < |s| ==> !IsSpace(s[|s| - |r| - 1]))
  {
    if |s| > 0 && IsSpace(s[|s| - 1]) {
      var u := s[..|s| - 1];
      TrailingSpaceRun(u);
      var r := TrailingSpace(u);
      assert TrailingSpace(s) == r + [s[|s| - 1]];
      assert s == u + [s[|s| - 1]];
      assert s[|s| - |r| - 1..] == u[|u| - |r|..] + [s[|s| - 1]];
    }
  }

  /** `strings.TrimLeftFunc(s, unicode.IsSpace)`. */
  function TrimLeft(s: string): (r: string)
    ensures |r| <= |s|
  {
    if |s| > 0 && IsSpace(s[0]) then TrimLeft(s[1..]) else s
  }

  /** `strings.TrimRightFunc(s, unicode.IsSpace)`. */
  function TrimRight(s: string): (r: string)
    ensures |r| <= |s|
  {
    if |s| > 0 && IsSpace(s[|s| - 1]) then TrimRight(s[..|s| - 1]) else s
  }

  /** `TrimLeft` removes exactly the leading run, and what it leaves does not start with white space. */
  lemma {:induction false} TrimLeftRun(s: string)
    ensures s == LeadingSpace(s) + TrimLeft(s)
    ensures TrimLeft(s) != [] ==> !IsSpace(TrimLeft(s)[0])
  {
    if |s| > 0 && IsSpace(s[0]) {
      TrimLeftRun(s[1..]);
      assert s == [s[0]] + s[1..];
    }
  }

  /** `TrimRight` removes exactly the trailing run, and what it leaves does not end with white space. */
  lemma {:induction false} TrimRightRun(s: string)
    ensures s == TrimRight(s) + TrailingSpace(s)
    ensures TrimRight(s) != [] ==> !IsSpace(TrimRight(s)[|TrimRight(s)| - 1])
  {
    if |s| > 0 && IsSpace(s[|s| - 1]) {
      var u := s[..|s| - 1];
      TrimRightRun(u);
      assert s == u + [s[|s| - 1]];
    }
  }

  /** `strings.TrimSpace`: drop the leading, then the trailing white space. */
  function TrimSpace(s: string): (r: string)
    ensures |r| <= |s|
  {
    TrimRight(TrimLeft(s))
  }

  /** The trimmed text sits between the two runs of white space and neither starts nor ends with one. */
  lemma TrimSpaceParts(s: string)
    ensures var r := TrimSpace(s);
      s == LeadingSpace(s) + r + TrailingSpace(TrimLeft(s)) && Trimmed(r)
  {
    var t := TrimLeft(s);
    var r := TrimRight(t);
    TrimLeftRun(s);
    TrimRightRun(t);
    AppendAssoc(LeadingSpace(s), r, TrailingSpace(t));
    if r != [] {
      assert r[0] == t[0];
    }
  }

  lemma AppendAssoc<T>(a: seq<T>, b: seq<T>, c: seq<T>)
    ensures a + (b + c) == (a + b) + c
  {
  }

  lemma AppendRegroup<T>(a: seq<T>, b: seq<T>, c: seq<T>, d: seq<T>)
    ensures a + b + c + d == a + (b + c + d)
  {
    AppendAssoc(a, b, c);
    AppendAssoc(a, b + c, d);
  }

  /** One more line after a head and the lines so far. */
  lemma LineAfter(head: string, t: string, line: string)
    ensures head + t + ("" + line + "\n") == head + (t + line + "\n")
  {
    assert "" + line == line;
    AppendRegroup(head, t, line, "\n");
  }

  /** The first line after a head. */
  lemma FirstLine(head: string, line: string)
    ensures "" + "" + (head + line + "\n") == head + ("" + line + "\n")
  {
    assert "" + line == line;
    AppendAssoc(head, line, "\n");
  }

  /** A comma-joined run `prefix + body + ","` extended by `s`, then closed by `tail`. */
  lemma RunStep(prev: string, prefix: string, body: string, s: string, tail: string)
    requires prev == prefix + body + ","
    ensures prev + ("" + s + tail) == prefix + (body + "," + s) + tail
  {
  }

  /** True when `s` neither starts nor ends with white space. */
  predicate Trimmed(s: string) { s == [] || (!IsSpace(s[0]) && !IsSpace(s[|s| - 1])) }

  lemma TrimSpaceOfTrimmed(s: string)
    requires Trimmed(s)
    ensures TrimSpace(s) == s
  {
    if s != [] {
      assert TrimLeft(s) == s;
    }
  }

  lemma TrimSpaceAfterSpace(s: string)
    requires Trimmed(s)
    ensures TrimSpace(" " + s) == s
  {
    var t := " " + s;
    assert t[1..] == s;
    assert TrimLeft(t) == TrimLeft(s);
    TrimSpaceOfTrimmed(s);
  }

  lemma TrimSpaceBeforeSpace(s: string)
    requires Trimmed(s)
    ensures TrimSpace(s + " ") == s
  {
    var t := s + " ";
    assert t[..|t| - 1] == s;
    if s != [] {
      assert t[0] == s[0];
      assert TrimLeft(t) == t;
      assert TrimRight(t) == TrimRight(s);
    } else {
      assert TrimLeft(t) == TrimLeft(t[1..]);
    }
  }

  /** Number of occurrences of `c` in `s` (`strings.Count` with a one-character separator). */
  function Count(s: string, c: char): (n: nat)
    ensures n <= |s|
  {
    if s == [] then 0 else Count(s[..|s| - 1], c) + (if s[|s| - 1] == c then 1 else 0)
  }

  lemma {:induction false} CountAppend(a: string, b: string, c: char)
    ensures Count(a + b, c) == Count(a, c) + Count(b, c)
    decreases |b|
  {
    if b == [] {
      assert a + b == a;
    } else {
      assert (a + b)[..|a + b| - 1] == a + b[..|b| - 1];
      CountAppend(a, b[..|b| - 1], c);
    }
  }

  /** Index of the first `c` in `s`, or `|s|` when there is none. */
  function Find(s: string, c: char): (i: nat)
    ensures i <= |s|
  {
    if s == [] then 0 else if s[0] == c then 0 else 1 + Find(s[1..], c)
  }

  /** `Find` stops at the first `c`. */
  lemma {:induction false} FindFirst(s: string, c: char)
    ensures var i := Find(s, c); (i < |s| ==> s[i] == c) && forall j :: 0 <= j < i ==> s[j] != c
  {
    if s != [] && s[0] != c {
      FindFirst(s[1..], c);
    }
  }

  /** `strings.SplitN(s, string(c), 2)`: one part when `c` is absent, otherwise the text before and after its first occurrence. */
  function SplitN2(s: string, c: char): (r: seq<string>)
    ensures 1 <= |r| <= 2
    ensures |r| == 1 ==> r[0] == s
  {
    var i := Find(s, c);
    if i == |s| then [s] else [s[..i], s[i + 1..]]
  }

  /** One part exactly when `c` is absent; two parts around the first `c` otherwise. */
  lemma SplitN2Parts(s: string, c: char)
    ensures var r := SplitN2(s, c);
      (|r| == 1 <==> c !in s) && (|r| == 2 ==> s == r[0] + [c] + r[1] && c !in r[0])
  {
    var i := Find(s, c);
    FindFirst(s, c);
    if i < |s| {
      assert s == s[..i] + [c] + s[i + 1..];
    }
  }

  /** Splitting at a separator that does not occur before it gives the text on either side. */
  lemma SplitN2At(a: string, c: char, b: string)
    requires c !in a
    ensures SplitN2(a + [c] + b, c) == [a, b]
  {
    FindAfterPrefix(a, [c] + b, c);
    assert a + [c] + b == a + ([c] + b);
    var s := a + [c] + b;
    assert s[..|a|] == a && s[|a| + 1..] == b;
  }

  /** `strings.Split(s, string(c))`. */
  function Split(s: string, c: char): (r: seq<string>)
    ensures |r| == Count(s, c) + 1
  {
    var i := Find(s, c);
    FindFirst(s, c);
    if i == |s| then
      assert Count(s, c) == 0 by { CountNone(s, c); }
      [s]
    else
      assert s == s[..i] + [c] + s[i + 1..];
      assert Count(s, c) == 1 + Count(s[i + 1..], c) by {
        CountNone(s[..i], c);
        CountAppend(s[..i], [c], c);
        CountAppend(s[..i] + [c], s[i + 1..], c);
      }
      [s[..i]] + Split(s[i + 1..], c)
  }

  lemma CountNone(s: string, c: char)
    requires forall j :: 0 <= j < |s| ==> s[j] != c
    ensures Count(s, c) == 0
  {
    if s != [] {
      CountNone(s[..|s| - 1], c);
    }
  }

  /** No part of a split holds the separator. */
  lemma {:induction false} SplitPartsFree(s: string, c: char)
    ensures forall k :: 0 <= k < |Split(s, c)| ==> c !in Split(s, c)[k]
    decreases |s|
  {
    var i := Find(s, c);
    FindFirst(s, c);
    if i < |s| {
      SplitPartsFree(s[i + 1..], c);
      assert c !in s[..i];
    }
  }

  /** `strings.Join(parts, sep)`. */
  function Join(parts: seq<string>, sep: string): string
  {
    if |parts| == 0 then ""
    else if |parts| == 1 then parts[0]
    else Join(parts[..|parts| - 1], sep) + sep + parts[|parts| - 1]
  }

  lemma JoinSnoc(parts: seq<string>, x: string, sep: string)
    requires parts != []
    ensures Join(parts + [x], sep) == Join(parts, sep) + sep + x
  {
    assert (parts + [x])[..|parts|] == parts;
  }

  /** Joining without a separator, read from the front. */
  /** Writing part `i` after the first `i` parts and a separator gives the join of `i + 1` parts. */
  lemma JoinStep(parts: seq<string>, i: nat, b: string)
    requires i < |parts|
    requires b == Join(parts[..i], ",") + (if 0 < i then "," else "")
    ensures b + parts[i] == Join(parts[..i + 1], ",")
  {
    assert parts[..i + 1] == parts[..i] + [parts[i]];
    if i > 0 {
      JoinSnoc(parts[..i], parts[i], ",");
    }
  }

  lemma {:induction false} JoinNoSepCons(parts: seq<string>)
    requires parts != []
    ensures Join(parts, "") == parts[0] + Join(parts[1..], "")
    decreases |parts|
  {
    if |parts| > 1 {
      var init := parts[..|parts| - 1];
      JoinNoSepCons(init);
      assert init[1..] == parts[1..][..|parts| - 2];
      if |parts| > 2 {
        assert Join(parts[1..], "") == Join(init[1..], "") + "" + parts[|parts| - 1];
      } else {
        assert init[1..] == [];
      }
    }
  }

  /** First position at which `t` occurs in `s`, searching from `from` (`strings.Index`). */
  function FindText(s: string, t: string, from: nat): (r: Option<nat>)
    ensures r.Some? ==> from <= r.value && r.value + |t| <= |s| && s[r.value..r.value + |t|] == t
    decreases |s| - from
  {
    if from + |t| > |s| then None
    else if s[from..from + |t|] == t then Some(from)
    else FindText(s, t, from + 1)
  }

  /** `strings.Replace(s, part, "", 1)`: remove the first occurrence of `part`. */
  function RemoveFirst(s: string, part: string): string
  {
    match FindText(s, part, 0)
    case None => s
    case Some(i) => s[..i] + s[i + |part|..]
  }

  /**
    Removing the trimmed text from a string leaves exactly its leading and
    trailing white space: the trimmed text cannot start inside the leading run.
   */
  lemma {:induction false} RemoveTrimmedLeavesEdges(s: string)
    ensures RemoveFirst(s, TrimSpace(s)) == LeadingSpace(s) + TrailingSpace(TrimLeft(s))
  {
    var lead := LeadingSpace(s);
    var t := TrimSpace(s);
    var trail := TrailingSpace(TrimLeft(s));
    TrimSpaceParts(s);
    LeadingSpaceRun(s);
    assert s == lead + t + trail;
    if t == [] {
      assert FindText(s, t, 0) == Some(0);
      assert s[0..] == s;
    } else {
      FindTextSkipsSpace(s, t, 0, |lead|);
      assert s[|lead|..|lead| + |t|] == t;
      assert FindText(s, t, |lead|) == Some(|lead|);
      assert s[..|lead|] == lead;
      assert s[|lead| + |t|..] == trail;
    }
  }

  lemma {:induction false} FindTextSkipsSpace(s: string, t: string, from: nat, stop: nat)
    requires from <= stop <= |s| && t != [] && !IsSpace(t[0])
    requires forall j :: from <= j < stop ==> IsSpace(s[j])
    requires stop + |t| <= |s|
    ensures FindText(s, t, from) == FindText(s, t, stop)
    decreases stop - from
  {
    if from < stop {
      assert s[from..from + |t|][0] == s[from];
      FindTextSkipsSpace(s, t, from + 1, stop);
    }
  }

  /**
    The tokens `bufio.Scanner` produces with `ScanLines`: the text split at each
    `\n`, without a final empty token when the text ends with `\n`.
   */
  function Lines(s: string): seq<string>
  {
    if s == [] then []
    else
      var i := Find(s, '\n');
      if i == |s| then [s] else [s[..i]] + Lines(s[i + 1..])
  }

  /** A text without a newline is one line. */
  lemma LinesOfOneLine(s: string)
    requires s != [] && '\n' !in s
    ensures Lines(s) == [s]
  {
    FindFirst(s, '\n');
    assert Find(s, '\n') == |s|;
  }

  /** No line the scanner produces holds a newline. */
  lemma {:induction false} LinesHaveNoNewline(s: string)
    ensures forall k :: 0 <= k < |Lines(s)| ==> '\n' !in Lines(s)[k]
    decreases |s|
  {
    if s != [] {
      var i := Find(s, '\n');
      FindFirst(s, '\n');
      if i < |s| {
        LinesHaveNoNewline(s[i + 1..]);
        assert '\n' !in s[..i];
      }
    }
  }

  /** Removing the whole text leaves nothing. */
  lemma RemoveAll(s: string)
    ensures RemoveFirst(s, s) == ""
  {
    assert s[0..|s|] == s;
  }

  /** Every string followed by a newline, as a builder writing lines produces them. */
  function Terminated(ls: seq<string>): string
  {
    if ls == [] then "" else Terminated(ls[..|ls| - 1]) + ls[|ls| - 1] + "\n"
  }

  /** The terminated prefix grows by one line and its newline. */
  lemma TerminatedPrefix(ls: seq<string>, k: nat)
    requires k < |ls|
    ensures Terminated(ls[..k + 1]) == Terminated(ls[..k]) + ls[k] + "\n"
  {
    assert ls[..k + 1][..k] == ls[..k];
  }

  /** `ls[0] + "\n"` followed by the rest: the right-to-left view of `Terminated`. */
  lemma {:induction false} TerminatedCons(ls: seq<string>)
    requires ls != []
    ensures Terminated(ls) == ls[0] + "\n" + Terminated(ls[1..])
    decreases |ls|
  {
    var init := ls[..|ls| - 1];
    var last := ls[|ls| - 1];
    if |ls| == 1 {
      assert init == [];
      assert ls[1..] == [];
    } else {
      TerminatedCons(init);
      var tail := ls[1..];
      assert tail[..|tail| - 1] == init[1..];
      assert tail[|tail| - 1] == last;
      calc {
        Terminated(ls);
        Terminated(init) + last + "\n";
        ls[0] + "\n" + Terminated(init[1..]) + last + "\n";
        ls[0] + "\n" + (Terminated(tail[..|tail| - 1]) + tail[|tail| - 1] + "\n");
        ls[0] + "\n" + Terminated(tail);
      }
    }
  }

  /** Scanning lines written one per `\n` gives them back. */
  lemma {:induction false} LinesOfTerminated(ls: seq<string>)
    requires forall k :: 0 <= k < |ls| ==> '\n' !in ls[k]
    ensures Lines(Terminated(ls)) == ls
    decreases |ls|
  {
    if ls != [] {
      var s := Terminated(ls);
      TerminatedCons(ls);
      var rest := Terminated(ls[1..]);
      assert s == ls[0] + ("\n" + rest);
      assert Find(s, '\n') == |ls[0]| by {
        FindAfterPrefix(ls[0], "\n" + rest, '\n');
      }
      assert s[..|ls[0]|] == ls[0];
      assert s[|ls[0]| + 1..] == rest;
      LinesOfTerminated(ls[1..]);
    }
  }

  lemma {:induction false} FindAfterPrefix(a: string, b: string, c: char)
    requires c !in a && b != [] && b[0] == c
    ensures Find(a + b, c) == |a|
    decreases |a|
  {
    if a != [] {
      assert (a + b)[1..] == a[1..] + b;
      FindAfterPrefix(a[1..], b, c);
    }
  }

  // ---------------------------------------------------------------------------
  // Decimal text of integers (fmt.Sprint of an int) and strconv.Atoi
  // ---------------------------------------------------------------------------

  function DigitChar(d: nat): (c: char)
    requires d < 10
    ensures IsDigit(c)
  {
    (48 + d) as char
  }

  function DigitValue(c: char): (d: nat)
    requires IsDigit(c)
    ensures d < 10
  {
    (c as int) - 48
  }

  predicate AllDigits(d: string) { forall i :: 0 <= i < |d| ==> IsDigit(d[i]) }

  /** Decimal digits of a natural number, most significant first, no leading zero. */
  function NatDigits(n: nat): (r: string)
    ensures |r| >= 1 && AllDigits(r)
  {
    if n < 10 then [DigitChar(n)] else NatDigits(n / 10) + [DigitChar(n % 10)]
  }

  /** Value of a string of decimal digits. */
  function DigitsValue(d: string): nat
    requires AllDigits(d)
  {
    if d == [] then 0 else DigitsValue(d[..|d| - 1]) * 10 + DigitValue(d[|d| - 1])
  }

  lemma {:induction false} DigitsValueOfNatDigits(n: nat)
    ensures DigitsValue(NatDigits(n)) == n
  {
    if n >= 10 {
      var d := NatDigits(n);
      assert d[..|d| - 1] == NatDigits(n / 10);
      DigitsValueOfNatDigits(n / 10);
    }
  }

  /** `fmt.Sprint` of an `int`. */
  function Decimal(n: int): (r: string)
    ensures |r| >= 1
  {
    if n < 0 then "-" + NatDigits(-n) else NatDigits(n)
  }

  /** A decimal is digits with an optional leading minus sign; its first digit is at 0 or 1. */
  lemma DecimalChars(n: int)
    ensures var d := Decimal(n); var k := if n < 0 then 1 else 0;
      k < |d| && IsDigit(d[k]) && forall i :: 0 <= i < |d| ==> d[i] == '-' || IsDigit(d[i])
  {
    if n < 0 {
      var d := Decimal(n);
      assert forall i :: 1 <= i < |d| ==> d[i] == NatDigits(-n)[i - 1];
    }
  }

  /**
    `strconv.Atoi`: an optional `+` or `-`, then one or more ASCII digits
    (leading zeros allowed, no underscores), whose value fits in 64 bits.
   */
  function Atoi(s: string): (r: Option<int>)
    ensures r.Some? ==> s != [] && InInt64(r.value)
    ensures r.Some? && r.value < 0 ==> s[0] == '-'
  {
    var signed := |s| > 0 && (s[0] == '-' || s[0] == '+');
    var body := if signed then s[1..] else s;
    if body == [] || !AllDigits(body) then None
    else
      var n: int := if |s| > 0 && s[0] == '-' then -(DigitsValue(body) as int) else DigitsValue(body);
      if InInt64(n) then Some(n) else None
  }

  /** What Atoi accepts: nothing but a sign and digits, and only in range. */
  lemma AtoiAccepts(s: string)
    ensures Atoi(s).Some? ==>
      && |s| >= 1
      && (IsDigit(s[0]) || ((s[0] == '-' || s[0] == '+') && |s| >= 2))
      && AllDigits(s[1..])
      && InInt64(Atoi(s).value)
  {
    if Atoi(s).Some? && IsDigit(s[0]) {
      assert forall i :: 1 <= i < |s| ==> s[1..][i - 1] == s[i];
    }
  }

  /** Atoi reads back what `fmt.Sprint` writes for every 64-bit integer. */
  lemma AtoiOfDecimal(n: int)
    requires InInt64(n)
    ensures Atoi(Decimal(n)) == Some(n)
  {
    var s := Decimal(n);
    if n < 0 {
      assert s[1..] == NatDigits(-n);
      DigitsValueOfNatDigits(-n);
    } else {
      DigitsValueOfNatDigits(n);
      assert IsDigit(s[0]);
    }
  }
}
