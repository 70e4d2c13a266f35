/**
  What the encoder's output looks like, proved from the specification
  functions of module MarshalSpec: the `key : value` record layout, the
  re-indented nested record, the nil pointer that spoils its record, the
  four array shapes (empty, inline, tabular, block) and the tabular
  header's key union.
 */
module MarshalProps {
  import opened Wrappers
  import opened GoText
  import opened MarshalSpec

  // ---------------------------------------------------------------------------
  // Joining line-shaped pieces

  /**
    Pieces that are each one line and its newline (the first one after a
    head) join into the head followed by the terminated lines.
   */
  lemma JoinAllLines<E>(rs: seq<Result<string, E>>, ls: seq<string>, head: string)
    requires |rs| == |ls|
    requires forall k :: 0 <= k < |rs| ==> rs[k] == Success((if k == 0 then head else "") + ls[k] + "\n")
    ensures JoinAll(rs, "") == Success((if rs == [] then "" else head) + Terminated(ls))
  {
    var k := 0;
    assert rs[..0] == [] && ls[..0] == [];
    assert JoinAll(rs[..0], "") == Success("");
    assert Terminated(ls[..0]) == "" && "" + "" == "";
    while k < |rs|
      invariant 0 <= k <= |rs|
      invariant JoinAll(rs[..k], "") == Success((if k == 0 then "" else head) + Terminated(ls[..k]))
    {
      var before := (if k == 0 then "" else head) + Terminated(ls[..k]);
      JoinAllStep(rs, k, before, "");
      TerminatedPrefix(ls, k);
      if k == 0 {
        assert ls[..k] == [];
        FirstLine(head, ls[k]);
      } else {
        LineAfter(head, Terminated(ls[..k]), ls[k]);
      }
      k := k + 1;
    }
    assert rs[..|rs|] == rs && ls[..|ls|] == ls;
  }

  // ---------------------------------------------------------------------------
  // Records

  /** `name : value`, the line of a scalar entry. */
  function ScalarLine(e: Entry): (r: string)
    requires IsScalar(e.val)
    ensures HasPrefix(r, e.name + " : ")
  {
    assert (e.name + " : " + ScalarText(e.val))[..|e.name + " : "|] == e.name + " : ";
    e.name + " : " + ScalarText(e.val)
  }

  function ScalarLines(es: seq<Entry>): (r: seq<string>)
    requires forall k :: 0 <= k < |es| ==> IsScalar(es[k].val)
    ensures |r| == |es| && forall k :: 0 <= k < |es| ==> IsScalar(es[k].val) && r[k] == ScalarLine(es[k])
  {
    seq(|es|, k requires 0 <= k < |es| && IsScalar(es[k].val) => ScalarLine(es[k]))
  }

  /** A record of scalars is one `name : value` line per entry, in entry order. */
  lemma ScalarRecordLayout(v: Val)
    requires v.Rec? && forall k :: 0 <= k < |v.entries| ==> IsScalar(v.entries[k].val)
    ensures RecordText(v) == Success(Terminated(ScalarLines(v.entries)))
  {
    var es := v.entries;
    var ls := ScalarLines(es);
    forall k | 0 <= k < |es|
      ensures EntryPieces(v)[k] == Success((if k == 0 then "" else "") + ls[k] + "\n")
    {
      assert IsScalar(es[k].val);
      assert EntryPieces(v)[k] == EntryText(es[k].name, es[k].val);
      assert EntryText(es[k].name, es[k].val) == Success(ls[k] + "\n");
      assert "" + ls[k] == ls[k];
    }
    JoinAllLines(EntryPieces(v), ls, "");
    assert "" + Terminated(ls) == Terminated(ls);
  }

  /**
    A nested record is `name :` on a line of its own, then every line of the
    record's own text indented by two spaces.
   */
  lemma NestedRecordLayout(name: string, x: Val, ls: seq<string>)
    requires x.Rec? && RecordText(x) == Success(Terminated(ls))
    requires forall k :: 0 <= k < |ls| ==> '\n' !in ls[k]
    ensures EntryText(name, x) == Success(name + " :\n" + Terminated(Prefixed(ls, "  ")))
  {
    LinesOfTerminated(ls);
  }

  /**
    A nil pointer entry makes its record fail, whether or not it is
    omitempty; with every earlier entry fine, the error is the unknown kind.
   */
  lemma NilPointerSpoilsRecord(v: Val, k: nat)
    requires v.Rec? && k < |v.entries| && v.entries[k].val == NilPtr
    ensures RecordText(v).Failure?
    ensures (forall i :: 0 <= i < k ==> EntryPieces(v)[i].Success?) ==> RecordText(v) == Failure(UnknownKind)
  {
    var pieces := EntryPieces(v);
    assert pieces[k] == Failure(UnknownKind);
    if forall i :: 0 <= i < k ==> pieces[i].Success? {
      JoinAllFirstFailure(pieces, k, "");
    }
  }

  /** The omitempty flags never change the record's text. */
  lemma OmitEmptyInert(v: Val, w: Val)
    requires v.Rec? && w.Rec? && |v.entries| == |w.entries|
    requires forall k :: 0 <= k < |v.entries| ==>
      v.entries[k].name == w.entries[k].name && v.entries[k].val == w.entries[k].val
    ensures RecordText(v) == RecordText(w)
  {
    assert EntryPieces(v) == EntryPieces(w);
  }

  // ---------------------------------------------------------------------------
  // Arrays

  /** An empty slice is `[0]: ` with no newline after it. */
  lemma EmptyArrayLayout(name: string, elemIsAny: bool)
    ensures Solve(Lst([], elemIsAny)) == Success("[0]: ")
    ensures EntryText(name, Lst([], elemIsAny)) == Success(name + "[0]: ")
  {
    assert DigitChar(0) == '0';
    assert LengthTag(0) == "[0]";
    assert "[0]" + ": " == "[0]: ";
    AppendAssoc(name, "[0]", ": ");
  }

  /**
    A non-empty typed slice of scalars is written inline: its length, `: `,
    the values joined by commas, and a newline unless the last value is a
    float.
   */
  lemma InlineArrayLayout(name: string, v: Val)
    requires v.Lst? && |v.elems| > 0 && !v.elemIsAny
    requires forall k :: 0 <= k < |v.elems| ==> IsScalar(Elem(v, k))
    ensures forall k :: 0 <= k < |v.elems| ==> InlineOk(v, k)
    ensures EntryText(name, v) == Success(name + LengthTag(|v.elems|) + ": " +
      Join(InlineTexts(v, |v.elems|), ",") + (if Elem(v, |v.elems| - 1).Float? then "" else "\n"))
  {
    assert forall k :: 0 <= k < |v.elems| ==> InlineOk(v, k);
    ArrayTextInline(v);
    var body := Join(InlineTexts(v, |v.elems|), ",");
    var tail := if Elem(v, |v.elems| - 1).Float? then "" else "\n";
    AppendRegroup(name + LengthTag(|v.elems|), ": ", body, tail);
  }

  /** `  - v`, the line of a scalar in the block form. */
  function DashLine(x: Val): string
    requires IsScalar(x)
  {
    "  - " + ScalarText(x)
  }

  function DashLines(xs: seq<Val>): (r: seq<string>)
    requires forall k :: 0 <= k < |xs| ==> IsScalar(xs[k])
    ensures |r| == |xs| && forall k :: 0 <= k < |xs| ==> IsScalar(xs[k]) && r[k] == DashLine(xs[k])
  {
    seq(|xs|, k requires 0 <= k < |xs| && IsScalar(xs[k]) => DashLine(xs[k]))
  }

  /**
    A non-empty `any` slice of scalars takes the block form: `:` and a
    newline, then one `  - v` line per element.
   */
  lemma AnyScalarListIsBlock(v: Val)
    requires v.Lst? && v.elemIsAny && |v.elems| > 0
    requires forall k :: 0 <= k < |v.elems| ==> IsScalar(v.elems[k])
    ensures ArrayText(v) == Success(":\n" + Terminated(DashLines(v.elems)))
  {
    ArrayTextStops(v, 0);
    assert Csv(v).Failure?;
    var ls := DashLines(v.elems);
    forall k | 0 <= k < |v.elems|
      ensures MixPieces(v)[k] == Success((if k == 0 then ":\n" else "") + ls[k] + "\n")
    {
      var x := v.elems[k];
      assert IsScalar(x);
      AppendAssoc(Opener(k), "  - ", ScalarText(x));
    }
    JoinAllLines(MixPieces(v), ls, ":\n");
  }

  // ---------------------------------------------------------------------------
  // The tabular form

  /** A key no entry carries is written as `null`. */
  lemma MissingKeyIsNull(x: Val, name: string)
    requires x.Rec? && forall k :: 0 <= k < |x.entries| ==> x.entries[k].name != name
    ensures Cell(x, name) == Success("null")
  {
  }

  /** A cell holding a bool fails, because `marshalSolve` has no case for bools. */
  lemma BoolCellFails(x: Val, name: string, k: nat)
    requires x.Rec? && k < |x.entries| && x.entries[k].name == name && x.entries[k].val.Bool?
    requires forall i :: k < i < |x.entries| ==> x.entries[i].name != name
    ensures Cell(x, name) == Failure(InvalidType)
  {
    var p := LastIndex(x.entries, name);
    assert p.Some?;
    assert p.value == k;
  }

  /** One failing cell anywhere makes the whole table fail. */
  lemma FailingCellSpoilsTable(v: Val, j: nat, k: nat)
    requires v.Lst? && forall i :: 0 <= i < |v.elems| ==> v.elems[i].Rec?
    requires j < |v.elems| && k < |KeyUnion(v.elems)|
    requires Cell(v.elems[j], KeyUnion(v.elems)[k]).Failure?
    ensures Csv(v).Failure?
  {
    var names := KeyUnion(v.elems);
    CsvWhenTabular(v, names);
    var cells := CsvCells(v.elems[j], names);
    assert !AllSucceed(cells) by {
      assert cells[k].Failure?;
    }
    var rows := CsvRows(v, names);
    assert rows[j].Failure?;
    assert !AllSucceed(rows);
  }

  /** The text of one row once every cell has succeeded: two spaces and the cells joined by commas. */
  function RowLine(x: Val, names: seq<string>): string
    requires x.Rec? && forall k :: 0 <= k < |names| ==> Cell(x, names[k]).Success?
  {
    "  " + Join(Values(CsvCells(x, names)), ",")
  }

  function RowLines(v: Val, names: seq<string>): (r: seq<string>)
    requires v.Lst? && forall j :: 0 <= j < |v.elems| ==> v.elems[j].Rec?
    requires forall j, k :: 0 <= j < |v.elems| && 0 <= k < |names| ==> Cell(v.elems[j], names[k]).Success?
    ensures |r| == |v.elems|
    ensures forall j :: 0 <= j < |v.elems| ==> v.elems[j].Rec? && r[j] == RowLine(v.elems[j], names)
  {
    seq(|v.elems|, j requires 0 <= j < |v.elems| => RowLine(v.elems[j], names))
  }

  /** A row whose cells all succeed is its line and a newline. */
  lemma CsvRowLine(v: Val, j: nat, names: seq<string>)
    requires v.Lst? && j < |v.elems| && v.elems[j].Rec?
    requires forall k :: 0 <= k < |names| ==> Cell(v.elems[j], names[k]).Success?
    ensures CsvRow(v, j, names) == Success(RowLine(v.elems[j], names) + "\n")
  {
    assert AllSucceed(CsvCells(v.elems[j], names));
  }

  /**
    When every element is a record and every cell succeeds, the table is
    the `{k1,...,km}:` header over the key union, then one row per element.
   */
  lemma TableLayout(v: Val)
    requires v.Lst? && |v.elems| > 0 && forall j :: 0 <= j < |v.elems| ==> v.elems[j].Rec?
    requires forall j, k :: 0 <= j < |v.elems| && 0 <= k < |KeyUnion(v.elems)| ==>
      Cell(v.elems[j], KeyUnion(v.elems)[k]).Success?
    ensures Csv(v) == Success(TableHeader(KeyUnion(v.elems)) + Terminated(RowLines(v, KeyUnion(v.elems))))
  {
    var names := KeyUnion(v.elems);
    CsvWhenTabular(v, names);
    var rows := CsvRows(v, names);
    var ls := RowLines(v, names);
    forall j | 0 <= j < |v.elems|
      ensures rows[j] == Success((if j == 0 then "" else "") + ls[j] + "\n")
    {
      CsvRowLine(v, j, names);
      assert "" + ls[j] == ls[j];
    }
    JoinAllLines(rows, ls, "");
    assert "" + Terminated(ls) == Terminated(ls);
  }

  /**
    A typed slice of records whose table succeeds is written as that table:
    the table is tried at the first element, which is a record.
   */
  lemma RecordsGoTabular(v: Val)
    requires v.Lst? && |v.elems| > 0 && !v.elemIsAny && Csv(v).Success?
    ensures ArrayText(v) == Csv(v)
  {
    assert v.elems[0].Rec?;
    ArrayTextStops(v, 0);
  }

  // ---------------------------------------------------------------------------
  // The key union

  /** The position of the first occurrence of `x`. */
  function FirstAt(s: seq<string>, x: string): (i: nat)
    requires x in s
    ensures i < |s| && s[i] == x && forall j :: 0 <= j < i ==> s[j] != x
  {
    if s[0] == x then 0 else 1 + FirstAt(s[1..], x)
  }

  /**
    `Dedup` keeps every name once, and the names come in the order of their
    first occurrences.
   */
  lemma DedupSpec(s: seq<string>)
    ensures forall x :: x in Dedup(s) <==> x in s
    ensures forall i, j :: 0 <= i < j < |Dedup(s)| ==> Dedup(s)[i] != Dedup(s)[j]
    ensures forall i, j :: 0 <= i < j < |Dedup(s)| ==> FirstAt(s, Dedup(s)[i]) < FirstAt(s, Dedup(s)[j])
  {
    DedupMembers(s);
    DedupOrder(s);
  }

  /** No name of `d` twice, and the names of `d` in the order of their first occurrences in `s`. */
  predicate InFirstSeenOrder(s: seq<string>, d: seq<string>)
    requires forall y :: y in d ==> y in s
  {
    forall i, j :: 0 <= i < j < |d| ==> d[i] != d[j] && FirstAt(s, d[i]) < FirstAt(s, d[j])
  }

  lemma {:induction false} DedupOrder(s: seq<string>)
    ensures forall y :: y in Dedup(s) ==> y in s
    ensures InFirstSeenOrder(s, Dedup(s))
    decreases |s|
  {
    if s != [] {
      DedupOrder(s[..|s| - 1]);
      DedupSnoc(s);
    }
  }

  /** One more name keeps the key union free of repeats and in first-seen order. */
  lemma DedupSnoc(s: seq<string>)
    requires s != []
    requires var init := s[..|s| - 1]; forall y :: y in Dedup(init) ==> y in init
    requires InFirstSeenOrder(s[..|s| - 1], Dedup(s[..|s| - 1]))
    ensures forall y :: y in Dedup(s) ==> y in s
    ensures InFirstSeenOrder(s, Dedup(s))
  {
    var init, x := s[..|s| - 1], s[|s| - 1];
    SnocParts(s);
    DedupMembers(s);
    var d := Dedup(s);
    var di := Dedup(init);
    assert d == di + (if x in init then [] else [x]);
    FirstAtSnoc(s);
    forall i, j | 0 <= i < j < |d|
      ensures d[i] != d[j] && FirstAt(s, d[i]) < FirstAt(s, d[j])
    {
      if j < |di| {
        assert d[i] == di[i] && d[j] == di[j];
      } else {
        assert d[j] == x && x !in init && d[i] == di[i];
        assert di[i] in init;
      }
    }
  }

  /** A name's first position in `s` is its first position before the last name, or that last position. */
  lemma FirstAtSnoc(s: seq<string>)
    requires s != []
    ensures forall y :: y in s[..|s| - 1] ==> FirstAt(s, y) == FirstAt(s[..|s| - 1], y)
    ensures s[|s| - 1] !in s[..|s| - 1] ==> FirstAt(s, s[|s| - 1]) == |s| - 1
  {
    var init, x := s[..|s| - 1], s[|s| - 1];
    SnocParts(s);
    forall y | y in init
      ensures FirstAt(s, y) == FirstAt(init, y)
    {
      FirstAtPrefix(init, [x], y);
    }
    if x !in init {
      FirstAtLast(init, x);
    }
  }

  lemma SnocParts(s: seq<string>)
    requires s != []
    ensures s == s[..|s| - 1] + [s[|s| - 1]]
  {
  }

  lemma {:induction false} FirstAtPrefix(a: seq<string>, b: seq<string>, y: string)
    requires y in a
    ensures y in a + b && FirstAt(a + b, y) == FirstAt(a, y)
    decreases |a|
  {
    if a[0] != y {
      assert (a + b)[1..] == a[1..] + b;
      FirstAtPrefix(a[1..], b, y);
    }
  }

  lemma FirstAtLast(a: seq<string>, x: string)
    requires x !in a
    ensures x in a + [x] && FirstAt(a + [x], x) == |a|
  {
    assert (a + [x])[|a|] == x;
  }

  // ---------------------------------------------------------------------------
  // Errors

  /** `marshalSolve` has no case for bools, pointers or any kind outside the supported ones. */
  lemma UnsupportedAtTopLevel(v: Val)
    requires v.Bool? || v.Ptr? || v.NilPtr? || v.Unsupported?
    ensures Solve(v) == Failure(InvalidType)
  {
  }

  /** An element of an unsupported kind in a typed slice is an error, wherever it stands. */
  lemma UnsupportedElementFails(v: Val, i: nat)
    requires v.Lst? && !v.elemIsAny && i < |v.elems| && Elem(v, i).Unsupported?
    requires forall k :: 0 <= k < i ==> InlineOk(v, k)
    ensures ArrayText(v) == Failure(UnknownKind)
  {
    ArrayTextStops(v, i);
  }

  /** A top-level slice that fails still hands back the `[N]` written before its elements, with the error. */
  lemma FailedSliceKeepsLength(v: Val)
    requires v.Lst? && ArrayText(v).Failure?
    ensures Marshal(ValueOf(v)) == Output(LengthTag(|v.elems|), Some(ArrayText(v).error))
  {
  }

  /** Any other failing value hands back no bytes at all. */
  lemma FailedOtherIsEmpty(v: Val)
    requires !v.Lst? && Solve(v).Failure?
    ensures Marshal(ValueOf(v)) == Output("", Some(Solve(v).error))
  {
  }

  /** So a typed slice that reaches an unsupported element returns `[N]` and the unknown-kind error. */
  lemma UnsupportedElementKeepsLength(v: Val, i: nat)
    requires v.Lst? && !v.elemIsAny && i < |v.elems| && Elem(v, i).Unsupported?
    requires forall k :: 0 <= k < i ==> InlineOk(v, k)
    ensures Marshal(ValueOf(v)) == Output(LengthTag(|v.elems|), Some(UnknownKind))
  {
    UnsupportedElementFails(v, i);
    FailedSliceKeepsLength(v);
  }

  /** `Marshal(nil)` panics: the untyped nil has no type to take the kind of. */
  lemma NilArgPanics()
    ensures Marshal(NilArg) == Panicked
  {
  }
}
