/**
  What the decoder of goon/unmarshal.go does, proved from the specification
  functions of module UnmarshalSpec: how indentation is measured, the
  buffering of deeper lines (which swallows the first line of every
  document the encoder writes), the re-decode of that buffer, which has no
  effect, the header matchers on the headers the encoder writes, and the
  counted readers of list and tabular blocks.
 */
module UnmarshalProps {
  import opened Wrappers
  import opened GoText
  import opened Classify
  import opened UnmarshalSpec

  // ---------------------------------------------------------------------------
  // Indentation

  /**
    The indentation of a key part counts the spaces both before and after
    the trimmed key: removing the key leaves exactly the two runs of white
    space around it.
   */
  lemma IndentationCountsEdges(key: string)
    ensures Indentation(key) == Count(LeadingSpace(key), ' ') + Count(TrailingSpace(TrimLeft(key)), ' ')
  {
    var lead := LeadingSpace(key);
    var trail := TrailingSpace(TrimLeft(key));
    RemoveTrimmedLeavesEdges(key);
    assert RemoveFirst(key, TrimSpace(key)) == lead + trail;
    CountAppend(lead, trail, ' ');
  }

  /** The key part `name ` of a line `name : value` measures one, not zero. */
  lemma {:induction false} EncodedKeyMeasuresOne(name: string)
    requires Trimmed(name)
    ensures TrimSpace(name + " ") == name
    ensures Indentation(name + " ") == 1
  {
    TrimSpaceBeforeSpace(name);
    var key := name + " ";
    assert FindText(key, name, 0) == Some(0) by {
      assert key[0..|name|] == name;
    }
    assert RemoveFirst(key, name) == " " by {
      assert key[..0] == "" && key[|name|..] == " ";
    }
    assert Count(" ", ' ') == 1 by {
      assert " "[..0] == "";
    }
  }

  /** A key part with no white space around it, such as a list header `name[N]`, measures zero. */
  lemma TrimmedKeyMeasuresZero(key: string)
    requires Trimmed(key)
    ensures Indentation(key) == 0
  {
    TrimSpaceOfTrimmed(key);
    RemoveAll(key);
  }

  // ---------------------------------------------------------------------------
  // Buffering of deeper lines

  /**
    A line that measures more than any line before it is appended to the
    nested buffer and goes no further: the destination is untouched.
   */
  lemma DeeperLineIsBuffered(lines: seq<string>, index: map<string, nat>, floatOk: FloatSyntax, m: Machine, key: string, value: string)
    requires m.cursor < |lines| && Fits(index, m.target) && SplitN2(lines[m.cursor], ':') == [key, value]
    requires Indentation(key) > m.lastIndent
    ensures Step(lines, index, floatOk, m).Success?
    ensures var m' := Step(lines, index, floatOk, m).value;
      m'.target == m.target && m'.cursor == m.cursor + 1 &&
      m'.lastIndent == Indentation(key) && m'.nested == m.nested + lines[m.cursor]
  {
    StepSplit(lines, index, floatOk, m, key, value);
  }

  /**
    The first line of every document the encoder writes, `name : value`,
    measures one and so is buffered as if it opened a nested record: it is
    never assigned.
   */
  lemma FirstLineSwallowed(lines: seq<string>, t: Target, floatOk: FloatSyntax, name: string, value: string)
    requires |lines| > 0 && lines[0] == name + " : " + value
    requires Trimmed(name) && ':' !in name
    ensures Step(lines, IndexOf(t), floatOk, Start(t)).Success?
    ensures var m' := Step(lines, IndexOf(t), floatOk, Start(t)).value;
      m'.target == t && m'.cursor == 1 && m'.lastIndent == 1 && m'.nested == lines[0]
  {
    assert lines[0] == (name + " ") + [':'] + (" " + value);
    SplitN2At(name + " ", ':', " " + value);
    EncodedKeyMeasuresOne(name);
    DeeperLineIsBuffered(lines, IndexOf(t), floatOk, Start(t), name + " ", " " + value);
  }

  /** Where the loop stands with its buffer: nothing buffered yet, or one line's worth without a newline. */
  ghost predicate BufferShape(m: Machine)
  {
    if m.lastIndent == 0 then m.nested == ""
    else
      && '\n' !in m.nested
      && var parts := SplitN2(m.nested, ':');
        |parts| == 2 && Indentation(parts[0]) >= 1
  }

  /** The buffer's first `:` is the first `:` of the first line buffered. */
  lemma SplitN2Extend(s: string, t: string)
    requires ':' in s
    ensures |SplitN2(s + t, ':')| == 2 && SplitN2(s + t, ':')[0] == SplitN2(s, ':')[0]
  {
    var parts := SplitN2(s, ':');
    SplitN2Parts(s, ':');
    assert s + t == parts[0] + [':'] + (parts[1] + t);
    SplitN2At(parts[0], ':', parts[1] + t);
  }

  /** Every turn of the loop over lines without a newline keeps the buffer's shape. */
  lemma StepKeepsBufferShape(lines: seq<string>, index: map<string, nat>, floatOk: FloatSyntax, m: Machine)
    requires m.cursor < |lines| && Fits(index, m.target) && '\n' !in lines[m.cursor]
    requires BufferShape(m)
    requires Step(lines, index, floatOk, m).Success?
    ensures BufferShape(Step(lines, index, floatOk, m).value)
  {
    var text := lines[m.cursor];
    var parts := SplitN2(text, ':');
    SplitN2Parts(text, ':');
    var m' := Step(lines, index, floatOk, m).value;
    StepSplit(lines, index, floatOk, m, parts[0], parts[1]);
    if Indentation(parts[0]) > m.lastIndent {
      assert m'.nested == m.nested + text && m'.lastIndent == Indentation(parts[0]);
      if m.lastIndent == 0 {
        assert m.nested + text == text;
      } else {
        assert ':' in m.nested by {
          assert |SplitN2(m.nested, ':')| == 2;
          SplitN2Parts(m.nested, ':');
        }
        SplitN2Extend(m.nested, text);
      }
    } else {
      assert m'.nested == m.nested && m'.lastIndent == m.lastIndent;
    }
  }

  /**
    The re-decode of the buffer that a shallower line triggers targets a
    fresh destination (the source passes a pointer to a `reflect.Value`),
    reads the buffer as a single line, finds it deeper than zero, buffers it
    and returns nil: it changes nothing and never fails.
   */
  lemma NestedRedecodeIsNoOp(m: Machine, t: Target, floatOk: FloatSyntax)
    requires BufferShape(m) && m.lastIndent > 0
    ensures RunFrom(Lines(m.nested), IndexOf(t), floatOk, Start(t)) == (t, None)
  {
    var parts := SplitN2(m.nested, ':');
    LinesOfOneLine(m.nested);
    var ls := Lines(m.nested);
    DeeperLineIsBuffered(ls, IndexOf(t), floatOk, Start(t), parts[0], parts[1]);
  }

  // ---------------------------------------------------------------------------
  // The header matchers on the headers the encoder writes

  /** The decimal text of a positive number does not start with 0. */
  lemma {:induction false} NatDigitsLead(n: nat)
    requires n > 0
    ensures '1' <= NatDigits(n)[0] <= '9'
  {
    if n >= 10 {
      NatDigitsLead(n / 10);
      assert NatDigits(n)[0] == NatDigits(n / 10)[0];
    }
  }

  lemma {:induction false} SkipDigitsRun(s: string, i: nat, j: nat)
    requires i <= j <= |s|
    requires forall k :: i <= k < j ==> IsDigit(s[k])
    requires j < |s| ==> !IsDigit(s[j])
    ensures SkipDigits(s, i) == j
    decreases j - i
  {
    if i < j {
      SkipDigitsRun(s, i + 1, j);
    }
  }

  /** The list matcher passes over a name without `[` or a newline. */
  lemma {:induction false} FindListFrom(s: string, p: nat, q: nat)
    requires p <= q <= |s|
    requires forall k :: p <= k < q ==> s[k] != '[' && s[k] != '\n'
    ensures FindList(s, p) == FindList(s, q)
    decreases q - p
  {
    if p < q {
      FindListFrom(s, p + 1, q);
    }
  }

  /** The tabular matcher finds nothing when no position starts its pattern. */
  lemma {:induction false} FindTableNone(s: string, p: nat)
    requires p <= |s|
    requires forall q :: p <= q <= |s| ==> TableAt(s, q).None?
    ensures FindTable(s, p).None?
    decreases |s| - p
  {
    if p < |s| {
      FindTableNone(s, p + 1);
    }
  }

  lemma {:induction false} FindTableFrom(s: string, p: nat, q: nat)
    requires p <= q <= |s|
    requires forall k :: p <= k < q ==> s[k] != '[' && s[k] != '\n'
    ensures FindTable(s, p) == FindTable(s, q)
    decreases q - p
  {
    if p < q {
      FindTableFrom(s, p + 1, q);
    }
  }

  /** A name the matchers can read: no `[`, and no newline for the lazy `.` to stop at. */
  predicate PlainName(name: string)
  {
    '[' !in name && '\n' !in name
  }

  /** Where the count of `name[N]...` lies. */
  lemma CountOfHeader(name: string, n: nat, rest: string)
    requires n > 0 && PlainName(name) && rest != [] && !IsDigit(rest[0]) && !ReSpace(rest[0])
    ensures var d := NatDigits(n); var s := name + "[" + d + rest;
      CountAt(s, |name|) == Some(Span(|name| + 1, |name| + 1 + |d|)) && s[|name| + 1..|name| + 1 + |d|] == d
  {
    var d := NatDigits(n);
    var s := name + "[" + d + rest;
    NatDigitsLead(n);
    assert s[|name|] == '[';
    assert forall k :: 0 <= k < |d| ==> s[|name| + 1 + k] == d[k];
    assert SkipSpace(s, |name| + 1) == |name| + 1;
    SkipDigitsRun(s, |name| + 2, |name| + 1 + |d|);
    assert s[|name| + 1..|name| + 1 + |d|] == d;
  }

  /**
    The list header the encoder writes, `name[N]`, is matched by the list
    regex with the name and the count as its two groups.
   */
  lemma ListHeaderMatched(name: string, n: nat)
    requires n > 0 && PlainName(name)
    ensures MatchList(name + "[" + NatDigits(n) + "]") == Some(ListHead(name, NatDigits(n)))
    ensures MatchTable(name + "[" + NatDigits(n) + "]").None?
  {
    ListHeaderIsList(name, n);
    ListHeaderIsNoTable(name, n);
  }

  lemma ListHeaderIsList(name: string, n: nat)
    requires n > 0 && PlainName(name)
    ensures MatchList(name + "[" + NatDigits(n) + "]") == Some(ListHead(name, NatDigits(n)))
  {
    var s := name + "[" + NatDigits(n) + "]";
    CountOfHeader(name, n, "]");
    assert s[..|name|] == name;
    FindListFrom(s, 0, |name|);
  }

  lemma ListHeaderIsNoTable(name: string, n: nat)
    requires n > 0 && PlainName(name)
    ensures MatchTable(name + "[" + NatDigits(n) + "]").None?
  {
    var d := NatDigits(n);
    var s := name + "[" + d + "]";
    CountOfHeader(name, n, "]");
    OneBracket(name, d);
    forall q | 0 <= q <= |s|
      ensures TableAt(s, q).None?
    {
    }
    FindTableNone(s, 0);
  }

  /** In `name[d]` with a plain name and a digit string `d`, the only `[` is the one after the name. */
  lemma OneBracket(name: string, d: string)
    requires PlainName(name) && AllDigits(d)
    ensures var s := name + "[" + d + "]";
      forall q :: 0 <= q < |s| && q != |name| ==> s[q] != '['
  {
    var s := name + "[" + d + "]";
    forall q | 0 <= q < |s| && q != |name|
      ensures s[q] != '['
    {
      if q < |name| {
        assert s[q] == name[q];
      } else if q < |name| + 1 + |d| {
        assert s[q] == d[q - |name| - 1];
      }
    }
  }

  /**
    The tabular header the encoder writes, `name[N]{k1,...,km}`, is matched
    by the tabular regex with ',' as its separator, provided the key list is
    not empty and holds no `}`.
   */
  lemma TableHeaderMatched(name: string, n: nat, fields: string)
    requires n > 0 && PlainName(name) && fields != [] && '}' !in fields
    ensures MatchTable(name + "[" + NatDigits(n) + "]" + "{" + fields + "}") == Some(TableHead(name, NatDigits(n), ',', fields))
  {
    var s := name + "[" + NatDigits(n) + "]" + "{" + fields + "}";
    assert s[..|name|] == name;
    FindTableFrom(s, 0, |name|);
    TableAtHeader(name, n, fields);
  }

  /** The tabular pattern matches the header from the position of its `[`. */
  lemma TableAtHeader(name: string, n: nat, fields: string)
    requires n > 0 && fields != [] && '}' !in fields
    ensures var s := name + "[" + NatDigits(n) + "]" + "{" + fields + "}";
      TableAt(s, |name|) == Some(TableHead(name, NatDigits(n), ',', fields))
  {
    var d := NatDigits(n);
    NatDigitsLead(n);
    HeaderIndex(name, d, fields);
    TableAtOfParts(name + "[" + d + "]" + "{" + fields + "}", |name|, |name| + 1 + |d|, name, d, fields);
  }

  /** `s` is laid out as `name[d]{fields}`, with its `[` at `p` and its `]` at `c`, a count `d` and a key list `fields`. */
  predicate HeaderLayout(s: string, p: nat, c: nat, name: string, d: string, fields: string)
  {
    && p < c && c + 3 + |fields| == |s|
    && s[..p] == name && s[p] == '[' && s[p + 1..c] == d && s[c] == ']' && s[c + 1] == '{'
    && s[c + 2..c + 2 + |fields|] == fields && s[c + 2 + |fields|] == '}'
    && PositiveCount(d) && fields != [] && '}' !in fields
  }

  /** Where the pieces of `name[d]{fields}` sit. */
  lemma HeaderIndex(name: string, d: string, fields: string)
    requires PositiveCount(d) && fields != [] && '}' !in fields
    ensures HeaderLayout(name + "[" + d + "]" + "{" + fields + "}", |name|, |name| + 1 + |d|, name, d, fields)
  {
    var s := name + "[" + d + "]" + "{" + fields + "}";
    var c := |name| + 1 + |d|;
    assert s[..|name|] == name;
    assert s[|name| + 1..c] == d;
    assert s[c + 2..c + 2 + |fields|] == fields;
  }

  /** The tabular pattern at `p` in a string laid out as `name[d]{fields}`. */
  lemma TableAtOfParts(s: string, p: nat, c: nat, name: string, d: string, fields: string)
    requires HeaderLayout(s, p, c, name, d, fields)
    ensures TableAt(s, p) == Some(TableHead(name, d, ',', fields))
  {
    var f := c + 2 + |fields|;
    forall k | p + 1 <= k < c ensures IsDigit(s[k]) {
      assert s[k] == s[p + 1..c][k - p - 1];
    }
    SkipDigitsRun(s, p + 2, c);
    assert SkipSpace(s, p + 1) == p + 1;
    forall k | c + 2 <= k < f ensures s[k] != '}' {
      assert s[k] == s[c + 2..f][k - c - 2];
    }
    SkipToRun(s, c + 2, f, '}');
    TableAtParts(s, p, c, f, name, d, fields);
  }

  /** The tabular pattern at `p` once its parts are known: the count, then `]{`, then the keys up to the first `}`. */
  lemma TableAtParts(s: string, p: nat, c: nat, f: nat, name: string, count: string, keys: string)
    requires p <= |s| && CountAt(s, p) == Some(Span(p + 1, c))
    requires c + 2 < f < |s| && s[c] == ']' && s[c + 1] == '{' && SkipTo(s, c + 2, '}') == f
    requires s[..p] == name && s[p + 1..c] == count && s[c + 2..f] == keys
    ensures TableAt(s, p) == Some(TableHead(name, count, ',', keys))
  {
    assert SkipSpace(s, c) == c;
  }

  lemma {:induction false} SkipToRun(s: string, i: nat, j: nat, c: char)
    requires i <= j < |s| && s[j] == c
    requires forall k :: i <= k < j ==> s[k] != c
    ensures SkipTo(s, i, c) == j
    decreases j - i
  {
    if i < j {
      SkipToRun(s, i + 1, j, c);
    }
  }

  /**
    The header the encoder writes for an empty slice, `name[0]`, is not a
    header to the decoder: the count's pattern wants a first digit from 1 to 9.
   */
  lemma ZeroLengthIsNoHeader(name: string)
    requires PlainName(name)
    ensures MatchList(name + "[0]").None? && MatchTable(name + "[0]").None?
  {
    var s := name + "[0]";
    assert s[..|name|] == name;
    assert s[|name|] == '[' && s[|name| + 1] == '0';
    assert SkipSpace(s, |name| + 1) == |name| + 1;
    FindListFrom(s, 0, |name|);
    assert ListAt(s, |name|).None?;
    FindListFrom(s, |name| + 1, |s|);
    forall q | 0 <= q <= |s|
      ensures TableAt(s, q).None?
    {
    }
    FindTableNone(s, 0);
  }

  // ---------------------------------------------------------------------------
  // The counted list reader

  /** The elements that the element lines among `ps` give, in order. */
  function ElementsIn(ps: seq<ListLine>): seq<Scalar>
  {
    if ps == [] then []
    else (if ps[0].Element? then [ps[0].x] else []) + ElementsIn(ps[1..])
  }

  /**
    A list block that reads to its end consumes lines up to and including
    the N-th element line: the lines in between are element lines or
    skipped lines, and the list is the elements of the element lines, in
    order.
   */
  lemma {:induction false} ListedReadsElementLines(parsed: seq<ListLine>, pos: nat, need: nat)
    requires pos <= |parsed|
    ensures var r := ListScan(parsed, pos, need);
      r.outcome.Listed? ==>
        && r.outcome.xs == ElementsIn(parsed[pos..r.next])
        && (forall q :: pos <= q < r.next ==> parsed[q].Skipped? || parsed[q].Element?)
        && (need > 0 ==> pos < r.next && parsed[r.next - 1].Element?)
    decreases |parsed| - pos
  {
    var r := ListScan(parsed, pos, need);
    if need == 0 {
      assert parsed[pos..pos] == [];
    } else if pos < |parsed| {
      var tail := ListScan(parsed, pos + 1, if parsed[pos].Element? then need - 1 else need);
      ListedReadsElementLines(parsed, pos + 1, if parsed[pos].Element? then need - 1 else need);
      if r.outcome.Listed? {
        assert parsed[pos].Skipped? || parsed[pos].Element?;
        assert r.next == tail.next;
        ElementsInFrom(parsed, pos, r.next);
      }
    }
  }

  /** The elements of a run of lines are those of its first line, then those of the rest. */
  lemma ElementsInFrom(parsed: seq<ListLine>, pos: nat, next: nat)
    requires pos < next <= |parsed|
    ensures ElementsIn(parsed[pos..next]) ==
      (if parsed[pos].Element? then [parsed[pos].x] else []) + ElementsIn(parsed[pos + 1..next])
  {
    var run := parsed[pos..next];
    assert run[0] == parsed[pos];
    assert run[1..] == parsed[pos + 1..next];
  }

  // ---------------------------------------------------------------------------
  // Tabular blocks

  /**
    The cells of a row are read in order: the row succeeds exactly when
    there are no more cells than names and every cell classifies.
   */
  lemma {:induction false} RowSucceeds(cells: seq<string>, order: seq<string>, floatOk: FloatSyntax, i: nat)
    requires i <= |cells|
    ensures RowSoFar(cells, order, floatOk, i).Success? <==>
      i <= |order| && forall j :: 0 <= j < i ==> Classify.Classify(cells[j], floatOk).Success?
    decreases i
  {
    if i > 0 {
      RowSucceeds(cells, order, floatOk, i - 1);
      var prev := RowSoFar(cells, order, floatOk, i - 1);
      var c := Classify.Classify(cells[i - 1], floatOk);
      if prev.Failure? {
        assert RowSoFar(cells, order, floatOk, i) == prev;
      } else if i - 1 >= |order| {
        assert RowSoFar(cells, order, floatOk, i).Failure?;
      } else if c.Failure? {
        assert RowSoFar(cells, order, floatOk, i).Failure?;
      } else {
        assert RowSoFar(cells, order, floatOk, i) == Success(prev.value[order[i - 1] := c.value]);
      }
    }
  }

  /** One more cell read into a row that has succeeded so far: its value goes under its name. */
  lemma RowSoFarStep(cells: seq<string>, order: seq<string>, floatOk: FloatSyntax, i: nat)
    requires 0 < i <= |cells| && i <= |order| && RowSoFar(cells, order, floatOk, i).Success?
    ensures RowSoFar(cells, order, floatOk, i - 1).Success? && Classify.Classify(cells[i - 1], floatOk).Success?
    ensures RowSoFar(cells, order, floatOk, i).value ==
      RowSoFar(cells, order, floatOk, i - 1).value[order[i - 1] := Classify.Classify(cells[i - 1], floatOk).value]
  {
  }

  /** A row that succeeds holds one entry per name read. */
  lemma {:induction false} RowKeys(cells: seq<string>, order: seq<string>, floatOk: FloatSyntax, i: nat)
    requires i <= |cells| && i <= |order| && RowSoFar(cells, order, floatOk, i).Success?
    ensures forall n :: n in RowSoFar(cells, order, floatOk, i).value <==> n in order[..i]
    decreases i
  {
    if i > 0 {
      RowSoFarStep(cells, order, floatOk, i);
      RowKeys(cells, order, floatOk, i - 1);
      assert order[..i] == order[..i - 1] + [order[i - 1]];
    }
  }

  /** The name at `j` is not used again before `i`. */
  predicate LastUse(order: seq<string>, j: nat, i: nat)
    requires j < i <= |order|
  {
    forall k :: j < k < i ==> order[k] != order[j]
  }

  /** The value under a name is the classification of the last cell read under it. */
  lemma {:induction false} RowLastCells(cells: seq<string>, order: seq<string>, floatOk: FloatSyntax, i: nat)
    requires i <= |cells| && i <= |order| && RowSoFar(cells, order, floatOk, i).Success?
    ensures forall j :: 0 <= j < i && LastUse(order, j, i) ==>
      order[j] in RowSoFar(cells, order, floatOk, i).value &&
      Classify.Classify(cells[j], floatOk) == Success(RowSoFar(cells, order, floatOk, i).value[order[j]])
    decreases i
  {
    if i > 0 {
      RowSoFarStep(cells, order, floatOk, i);
      RowLastCells(cells, order, floatOk, i - 1);
      forall j | 0 <= j < i - 1 && LastUse(order, j, i)
        ensures LastUse(order, j, i - 1)
      {
      }
    }
  }

  /**
    A row that succeeds holds one entry per name, the value of the last
    cell under that name.
   */
  lemma RowHoldsLastCells(cells: seq<string>, order: seq<string>, floatOk: FloatSyntax, i: nat)
    requires i <= |cells| && i <= |order| && RowSoFar(cells, order, floatOk, i).Success?
    ensures forall n :: n in RowSoFar(cells, order, floatOk, i).value <==> n in order[..i]
    ensures forall j :: 0 <= j < i && order[j] !in order[j + 1..i] ==>
      Classify.Classify(cells[j], floatOk) == Success(RowSoFar(cells, order, floatOk, i).value[order[j]])
  {
    RowKeys(cells, order, floatOk, i);
    RowLastCells(cells, order, floatOk, i);
    forall j | 0 <= j < i && order[j] !in order[j + 1..i]
      ensures LastUse(order, j, i)
    {
      forall k | j < k < i ensures order[k] != order[j] {
        assert order[k] == order[j + 1..i][k - j - 1];
      }
    }
  }

  /** A row with more cells than there are names panics once the named cells are read. */
  lemma TooManyCellsPanics(cells: seq<string>, order: seq<string>, floatOk: FloatSyntax)
    requires |cells| > |order|
    requires forall j :: 0 <= j < |order| ==> Classify.Classify(cells[j], floatOk).Success?
    ensures RowSoFar(cells, order, floatOk, |cells|) == Failure(Panic(TooManyCells))
  {
    RowSucceeds(cells, order, floatOk, |order|);
    assert RowSoFar(cells, order, floatOk, |order| + 1) == Failure(Panic(TooManyCells));
    RowFailureSticks(cells, order, floatOk, |order| + 1, |cells|);
  }

  /**
    Cells are split with no regard for quotes: a quoted cell `"a,b"` holding
    the separator is two cells, which is one more than a single name allows.
   */
  lemma QuotedSeparatorSplitsCell(a: string, b: string, floatOk: FloatSyntax)
    requires ',' !in a && ',' !in b
    ensures Row("\"" + a + "," + b + "\"", ["x"], ',', floatOk) == Failure(Panic(TooManyCells))
  {
    var text := "\"" + a + "," + b + "\"";
    QuotedPairSplit(a, b);
    var cells := Split(text, ',');
    var order := ["x"];
    forall j | 0 <= j < |order| ensures Classify.Classify(cells[j], floatOk).Success? {
      assert cells[j] == "\"" + a;
      assert cells[j][0] == '"';
    }
    TooManyCellsPanics(cells, order, floatOk);
  }

  lemma QuotedPairSplit(a: string, b: string)
    requires ',' !in a && ',' !in b
    ensures var text := "\"" + a + "," + b + "\"";
      TrimSpace(text) == text && |Split(text, ',')| == 2 && Split(text, ',')[0] == "\"" + a
  {
    var head, tail := "\"" + a, b + "\"";
    var text := head + [','] + tail;
    assert text == "\"" + a + "," + b + "\"";
    assert TrimSpace(text) == text by {
      assert text[0] == '"' && text[|text| - 1] == '"';
      TrimSpaceOfTrimmed(text);
    }
    SplitAtOnlySeparator(head, tail, ',');
  }

  /** A text with one separator splits into the parts before and after it. */
  lemma SplitAtOnlySeparator(head: string, tail: string, c: char)
    requires c !in head && c !in tail
    ensures |Split(head + [c] + tail, c)| == 2 && Split(head + [c] + tail, c)[0] == head
  {
    var text := head + [c] + tail;
    assert |Split(text, c)| == 2 by {
      CountNone(head, c);
      CountNone(tail, c);
      CountAppend(head, [c], c);
      CountAppend(head + [c], tail, c);
    }
    assert Split(text, c)[0] == head by {
      assert text == head + ([c] + tail);
      FindAfterPrefix(head, [c] + tail, c);
      assert text[..|head|] == head;
    }
  }

  /** A tabular block under a name no struct field carries: its rows are read, then nothing is set. */
  lemma UnknownTableSkipped(lines: seq<string>, index: map<string, nat>, floatOk: FloatSyntax, m: Machine, h: TableHead, n: nat)
    requires m.cursor <= |lines| && Fits(index, m.target) && PositiveCount(h.count)
    requires m.target.StructTarget? && h.name !in index && CountValue(h.count) == Some(n)
    requires CsvSoFar(lines, m.cursor, n, Split(h.fields, h.sep), h.sep, floatOk).Success?
    ensures TableStep(lines, index, floatOk, m, h) == Success(m.(cursor := After(lines, m.cursor, n)))
  {
  }

  /** A tabular block is refused by a struct field that is not a slice, once its rows are read. */
  lemma TableIntoNonSliceFails(lines: seq<string>, index: map<string, nat>, floatOk: FloatSyntax, m: Machine, h: TableHead, n: nat)
    requires m.cursor <= |lines| && Fits(index, m.target) && PositiveCount(h.count)
    requires m.target.StructTarget? && h.name in index && !m.target.fields[index[h.name]].slot.SliceSlot?
    requires CountValue(h.count) == Some(n)
    requires CsvSoFar(lines, m.cursor, n, Split(h.fields, h.sep), h.sep, floatOk).Success?
    ensures TableStep(lines, index, floatOk, m, h) == Failure(CsvOnNonSlice)
  {
  }

  /** A tabular block into a map: its rows, without their null cells, under the header's name. */
  lemma TableIntoMap(lines: seq<string>, index: map<string, nat>, floatOk: FloatSyntax, m: Machine, h: TableHead, n: nat)
    requires m.cursor <= |lines| && Fits(index, m.target) && PositiveCount(h.count)
    requires m.target.MapTarget? && CountValue(h.count) == Some(n)
    requires CsvSoFar(lines, m.cursor, n, Split(h.fields, h.sep), h.sep, floatOk).Success?
    ensures var rows := CsvSoFar(lines, m.cursor, n, Split(h.fields, h.sep), h.sep, floatOk).value;
      var r := TableStep(lines, index, floatOk, m, h);
      && r.Success? && r.value.cursor == After(lines, m.cursor, n)
      && r.value.target.MapTarget?
      && r.value.target.entries == m.target.entries[h.name := r.value.target.entries[h.name]]
      && r.value.target.entries[h.name].MapRows?
      && var got := r.value.target.entries[h.name].rows;
        |got| == |rows| &&
        forall k, c :: 0 <= k < |rows| ==>
          (c in got[k] <==> c in rows[k] && rows[k][c] != SNull) && (c in got[k] ==> got[k][c] == rows[k][c])
  {
  }

  /**
    A struct element of a tabular block takes a column only into the last
    field whose non-empty tag names it, and only when the cell is not null;
    every other field keeps its zero value.
   */
  lemma StructElemTakesTaggedColumns(row: map<string, Scalar>, tags: seq<string>)
    ensures var r := BuildElem(row, tags, ElemIndex(tags));
      forall p :: 0 <= p < |tags| ==>
        (r[p].Some? <==> tags[p] != "" && tags[p] in row && row[tags[p]] != SNull && tags[p] !in tags[p + 1..])
    ensures var r := BuildElem(row, tags, ElemIndex(tags));
      forall p :: 0 <= p < |tags| && r[p].Some? ==> r[p].value == row[tags[p]]
  {
    var emap := ElemIndex(tags);
    forall p | 0 <= p < |tags|
      ensures (tags[p] in emap && emap[tags[p]] == p) <==> tags[p] != "" && tags[p] !in tags[p + 1..]
    {
      var rest := tags[p + 1..];
      if tags[p] != "" && tags[p] !in rest {
        assert tags[p] in emap;
      }
      if tags[p] in emap && emap[tags[p]] == p {
        forall j | 0 <= j < |rest| ensures rest[j] != tags[p] {
          assert rest[j] == tags[p + 1 + j];
        }
      }
    }
  }

  // ---------------------------------------------------------------------------
  // Scalar lines

  /**
    A struct destination looks a key up without checking that it is there:
    an unknown key resolves to field 0, which then takes the value when the
    kinds agree and fails with a kind mismatch otherwise.
   */
  lemma MissingKeyResolvesToFieldZero(index: map<string, nat>, m: Machine, v: LineView, x: Scalar)
    requires m.target.StructTarget? && |m.target.fields| > 0 && v.base !in index
    requires v.ind >= m.lastIndent && v.token == Success(x) && x != SNull
    ensures var r := ScalarStep(index, m, v);
      var fs := m.target.fields;
      var fk := FieldKind(fs[0].slot);
      && (r.Success? <==> fk == ScalarKind(x) || fk == InterfaceKind)
      && (r.Failure? ==> r.error == Mismatch(ScalarKind(x), fk))
      && (r.Success? ==> r.value.target == StructTarget(fs[0 := fs[0].(val := One(x))]))
  {
  }

  /** Splitting at a separator that the name does not hold gives the name first. */
  lemma BaseNameOfHeader(name: string, rest: string)
    requires PlainName(name) && Trimmed(name)
    ensures BaseName(name + "[" + rest) == name
  {
    var s := name + "[" + rest;
    assert s == name + (['['] + rest);
    FindAfterPrefix(name, ['['] + rest, '[');
    assert Find(s, '[') == |name|;
    assert s[..|name|] == name;
    assert Split(s, '[')[0] == name;
    TrimSpaceOfTrimmed(name);
  }

  lemma BaseNameOfEmptyList(name: string)
    requires PlainName(name) && Trimmed(name)
    ensures BaseName(name + "[0]") == name
  {
    BaseNameOfHeader(name, "0]");
    assert name + "[0]" == name + "[" + "0]";
  }

  /** The parts of the line `name[0]: ` that the encoder writes for an empty slice. */
  lemma EmptyListLineSplit(name: string)
    requires PlainName(name) && Trimmed(name) && ':' !in name
    ensures SplitN2(name + "[0]: ", ':') == [name + "[0]", " "]
    ensures TrimSpace(name + "[0]") == name + "[0]" && TrimSpace(" ") == ""
    ensures Indentation(name + "[0]") == 0
  {
    var key := name + "[0]";
    assert name + "[0]: " == key + [':'] + " ";
    assert ':' !in key;
    SplitN2At(key, ':', " ");
    assert key[|key| - 1] == ']';
    assert key[0] == if name == [] then '[' else name[0];
    TrimSpaceOfTrimmed(key);
    TrimSpaceAfterSpace("");
    assert " " + "" == " ";
    TrimmedKeyMeasuresZero(key);
  }

  /** The empty token is the empty String, not null. */
  lemma EmptyTokenIsEmptyString(floatOk: FloatSyntax)
    ensures Classify.Classify("", floatOk) == Success(SStr(""))
  {
    assert !HasDigit("");
  }

  /** A line at or above the deepest indentation so far goes on to the header tests. */
  lemma TurnBranches(lines: seq<string>, index: map<string, nat>, floatOk: FloatSyntax, m: Machine, v: LineView)
    requires m.cursor < |lines| && Fits(index, m.target) && ViewOk(v) && v.ind <= m.lastIndent
    ensures Turn(lines, index, floatOk, m, v) ==
      Branch(lines, index, floatOk, m.(cursor := m.cursor + 1, saveName := if v.tval == "" then v.tkey else m.saveName), v)
  {
  }

  /** A key that is not a header, or a non-empty value, makes a scalar line. */
  lemma BranchScalar(lines: seq<string>, index: map<string, nat>, floatOk: FloatSyntax, m: Machine, v: LineView)
    requires m.cursor <= |lines| && Fits(index, m.target) && ViewOk(v)
    requires v.tval != "" || (v.table.None? && v.list.None?)
    ensures Branch(lines, index, floatOk, m, v) == ScalarStep(index, m, v)
  {
  }

  /** A scalar whose kind differs from its field's is refused with a kind mismatch. */
  lemma ScalarMismatch(index: map<string, nat>, m: Machine, v: LineView, x: Scalar)
    requires v.token == Success(x) && !x.SNull?
    requires m.target.StructTarget? && v.ind >= m.lastIndent
    requires v.base in index && index[v.base] < |m.target.fields|
    requires var fk := FieldKind(m.target.fields[index[v.base]].slot); fk != ScalarKind(x) && fk != InterfaceKind
    ensures ScalarStep(index, m, v) ==
      Failure(Mismatch(ScalarKind(x), FieldKind(m.target.fields[index[v.base]].slot)))
  {
  }

  /** A null value is skipped: neither a struct field nor a map key is touched. */
  lemma NullScalarSkipped(index: map<string, nat>, m: Machine, v: LineView)
    requires v.token == Success(SNull)
    ensures ScalarStep(index, m, v) == Success(m)
  {
  }

  /**
    A line `key : null` at or below the current indentation only moves the
    cursor on: the destination, the indentation, the saved name and the
    nested buffer are all kept.
   */
  lemma NullLineSkipped(lines: seq<string>, index: map<string, nat>, floatOk: FloatSyntax, m: Machine, key: string, value: string)
    requires m.cursor < |lines| && Fits(index, m.target)
    requires SplitN2(lines[m.cursor], ':') == [key, value]
    requires TrimSpace(value) == "null" && Indentation(key) <= m.lastIndent
    ensures Step(lines, index, floatOk, m) == Success(m.(cursor := m.cursor + 1))
  {
    var v := ViewOf(key, value, floatOk);
    assert v.token == Success(SNull);
    StepSplit(lines, index, floatOk, m, key, value);
    var m1 := m.(cursor := m.cursor + 1);
    TurnBranches(lines, index, floatOk, m, v);
    BranchScalar(lines, index, floatOk, m1, v);
    NullScalarSkipped(index, m1, v);
  }

  /**
    The line `name[0]: ` that the encoder writes for an empty slice splits
    into the key `name[0]` and the value ` `, and reads as an empty String
    stored under `name`, with no header match and no indentation.
   */
  lemma EmptyListView(name: string, floatOk: FloatSyntax)
    requires PlainName(name) && Trimmed(name) && ':' !in name
    ensures SplitN2(name + "[0]: ", ':') == [name + "[0]", " "]
    ensures ViewOf(name + "[0]", " ", floatOk) == LineView(name + "[0]", "", 0, name, None, None, Success(SStr("")))
  {
    EmptyListLineSplit(name);
    EmptyTokenIsEmptyString(floatOk);
    ZeroLengthIsNoHeader(name);
    BaseNameOfEmptyList(name);
  }

  /** `Step` on that line is a turn on its view. */
  lemma EmptyListStep(lines: seq<string>, index: map<string, nat>, floatOk: FloatSyntax, m: Machine, name: string)
    requires m.cursor < |lines| && Fits(index, m.target) && lines[m.cursor] == name + "[0]: "
    requires PlainName(name) && Trimmed(name) && ':' !in name
    ensures Step(lines, index, floatOk, m) ==
      Turn(lines, index, floatOk, m, LineView(name + "[0]", "", 0, name, None, None, Success(SStr(""))))
  {
    EmptyListView(name, floatOk);
    StepSplit(lines, index, floatOk, m, name + "[0]", " ");
  }

  /**
    That line is not a header: it is a scalar line whose value is the empty
    String (not null). Before any deeper line, a map destination stores it
    under the whole key, brackets included.
   */
  lemma EmptyListIntoMap(lines: seq<string>, index: map<string, nat>, floatOk: FloatSyntax, m: Machine, name: string)
    requires m.cursor < |lines| && Fits(index, m.target) && m.target.MapTarget? && m.lastIndent == 0
    requires lines[m.cursor] == name + "[0]: "
    requires PlainName(name) && Trimmed(name) && ':' !in name
    ensures Step(lines, index, floatOk, m) == Success(m.(cursor := m.cursor + 1, saveName := name + "[0]",
      target := MapTarget(m.target.entries[name + "[0]" := One(SStr(""))])))
  {
    EmptyListStep(lines, index, floatOk, m, name);
    EmptyViewIntoMap(lines, index, floatOk, m, name);
  }

  lemma EmptyViewIntoMap(lines: seq<string>, index: map<string, nat>, floatOk: FloatSyntax, m: Machine, name: string)
    requires m.cursor < |lines| && Fits(index, m.target) && m.target.MapTarget? && m.lastIndent == 0
    ensures Turn(lines, index, floatOk, m, LineView(name + "[0]", "", 0, name, None, None, Success(SStr("")))) ==
      Success(m.(cursor := m.cursor + 1, saveName := name + "[0]",
        target := MapTarget(m.target.entries[name + "[0]" := One(SStr(""))])))
  {
    var v := LineView(name + "[0]", "", 0, name, None, None, Success(SStr("")));
    var m1 := m.(cursor := m.cursor + 1, saveName := name + "[0]");
    TurnBranches(lines, index, floatOk, m, v);
    BranchScalar(lines, index, floatOk, m1, v);
  }

  /**
    Decoded into a struct, the same line is a String for the field named
    `name`: a slice field there rejects it with a kind mismatch, so an empty
    slice the encoder wrote as the first line does not decode back into its
    field.
   */
  lemma EmptyListIntoSliceFieldFails(lines: seq<string>, index: map<string, nat>, floatOk: FloatSyntax, m: Machine, name: string)
    requires m.cursor < |lines| && Fits(index, m.target) && m.target.StructTarget? && m.lastIndent == 0
    requires lines[m.cursor] == name + "[0]: "
    requires PlainName(name) && Trimmed(name) && ':' !in name
    requires name in index && m.target.fields[index[name]].slot.SliceSlot?
    ensures Step(lines, index, floatOk, m) == Failure(Mismatch(StringKind, SliceKind))
  {
    EmptyListStep(lines, index, floatOk, m, name);
    EmptyViewIntoSliceField(lines, index, floatOk, m, name);
  }

  lemma EmptyViewIntoSliceField(lines: seq<string>, index: map<string, nat>, floatOk: FloatSyntax, m: Machine, name: string)
    requires m.cursor < |lines| && Fits(index, m.target) && m.target.StructTarget? && m.lastIndent == 0
    requires name in index && m.target.fields[index[name]].slot.SliceSlot?
    ensures Turn(lines, index, floatOk, m, LineView(name + "[0]", "", 0, name, None, None, Success(SStr("")))) ==
      Failure(Mismatch(StringKind, SliceKind))
  {
    var v := LineView(name + "[0]", "", 0, name, None, None, Success(SStr("")));
    var m1 := m.(cursor := m.cursor + 1, saveName := name + "[0]");
    ScalarMismatch(index, m1, v, SStr(""));
    BranchScalar(lines, index, floatOk, m1, v);
    TurnBranches(lines, index, floatOk, m, v);
  }

  /** A value that `recognizeType` rejects stops the decode with its error, wherever the line stands. */
  lemma BadTokenStops(lines: seq<string>, index: map<string, nat>, floatOk: FloatSyntax, m: Machine, key: string, value: string)
    requires m.cursor < |lines| && Fits(index, m.target) && SplitN2(lines[m.cursor], ':') == [key, value]
    requires Indentation(key) <= m.lastIndent && Classify.Classify(TrimSpace(value), floatOk).Failure?
    ensures Step(lines, index, floatOk, m) == Failure(BadToken(Classify.Classify(TrimSpace(value), floatOk).error))
  {
    StepSplit(lines, index, floatOk, m, key, value);
    var v := ViewOf(key, value, floatOk);
    TurnBranches(lines, index, floatOk, m, v);
    assert v.tval != "" by { EmptyTokenIsEmptyString(floatOk); }
    BranchScalar(lines, index, floatOk, m.(cursor := m.cursor + 1), v);
  }

  /**
    A scalar line shallower than the deepest line so far only triggers the
    re-decode of the buffer: it is not assigned.
   */
  lemma ShallowerLineNotAssigned(lines: seq<string>, index: map<string, nat>, floatOk: FloatSyntax, m: Machine, key: string, value: string)
    requires m.cursor < |lines| && Fits(index, m.target) && SplitN2(lines[m.cursor], ':') == [key, value]
    requires Indentation(key) < m.lastIndent && TrimSpace(value) != ""
    ensures Step(lines, index, floatOk, m).Success? ==> Step(lines, index, floatOk, m).value.target == m.target
  {
    StepSplit(lines, index, floatOk, m, key, value);
    var v := ViewOf(key, value, floatOk);
    var m1 := m.(cursor := m.cursor + 1);
    TurnBranches(lines, index, floatOk, m, v);
    BranchScalar(lines, index, floatOk, m1, v);
    ShallowerViewKept(index, m1, v);
  }

  /** The scalar part of a line above the deepest indentation so far leaves the target as it was. */
  lemma ShallowerViewKept(index: map<string, nat>, m: Machine, v: LineView)
    requires v.ind < m.lastIndent
    ensures ScalarStep(index, m, v).Success? ==> ScalarStep(index, m, v).value.target == m.target
  {
  }
}
