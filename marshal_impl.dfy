/**
  The encoder as goon/marshal.go runs it: builders appended to inside loops,
  with early returns on errors. Every method is proved to produce exactly
  the text (or the error) of the specification function of the same routine
  in module MarshalSpec.
 */
module MarshalImpl {
  import opened Wrappers
  import opened GoText
  import opened MarshalSpec

  /** `normalize`: the tagged fields of a struct, or the pairs of a map. */
  method NormalizeValue(src: Source) returns (r: Result<seq<Entry>, MarshalError>)
    ensures r == Normalize(src)
  {
    match src {
      case StructOf(fs) =>
        var out: seq<Entry> := [];
        var i := 0;
        while i < |fs|
          invariant 0 <= i <= |fs|
          invariant out == StructEntries(fs[..i])
        {
          assert fs[..i + 1][..i] == fs[..i];
          var f := fs[i];
          if f.toonTag == "" {
            i := i + 1;
            continue;
          }
          var omit := false;
          if f.omitTag != "" {
            omit := true;
          }
          out := out + [Entry(f.toonTag, f.val, omit)];
          i := i + 1;
        }
        assert fs[..|fs|] == fs;
        r := Success(out);
      case MapOf(pairs) =>
        var out: seq<Entry> := [];
        var i := 0;
        while i < |pairs|
          invariant 0 <= i <= |pairs|
          invariant out == MapEntries(pairs[..i])
        {
          out := out + [Entry(pairs[i].0, pairs[i].1, false)];
          i := i + 1;
        }
        assert pairs[..|pairs|] == pairs;
        r := Success(out);
      case OtherKind =>
        r := Failure(UnsupportedKind);
    }
  }

  /** `marshalSolve`. */
  method MarshalSolve(v: Val) returns (r: Text)
    ensures r == Solve(v)
    decreases v, 6
  {
    match v {
      case Rec(_) =>
        r := MarshalStruct(v);
      case Str(s) =>
        r := Success(Quote(s));
      case Int(i) =>
        r := Success(Decimal(i));
      case Float(t) =>
        r := Success(t);
      case Lst(elems, _) =>
        var s := ArrayMarshal(v);
        r := Cat(Success(LengthTag(|elems|)), s);
      case _ =>
        r := Failure(InvalidType);
    }
  }

  /** The scanner loop of `marshalStruct`: every line of `content` indented by two spaces. */
  method IndentLines(content: string) returns (b: string)
    ensures b == Terminated(Prefixed(Lines(content), "  "))
  {
    var lines := Lines(content);
    b := "";
    var j := 0;
    while j < |lines|
      invariant 0 <= j <= |lines|
      invariant b == Terminated(Prefixed(lines[..j], "  "))
    {
      assert Prefixed(lines[..j + 1], "  ")[..j] == Prefixed(lines[..j], "  ");
      b := b + "  " + lines[j] + "\n";
      j := j + 1;
    }
    assert lines[..|lines|] == lines;
  }

  /** The `lock` loop of `arrayMixMarshal`: the first line as it is, the others indented by four spaces. */
  method IndentAfterFirst(content: string) returns (b: string)
    ensures b == FirstThenIndented(Lines(content))
  {
    var lines := Lines(content);
    b := "";
    var lock := true;
    var j := 0;
    while j < |lines|
      invariant 0 <= j <= |lines|
      invariant lock <==> j == 0
      invariant j == 0 ==> b == ""
      invariant j > 0 ==> b == lines[0] + "\n" + Terminated(Prefixed(lines[1..j], "    "))
    {
      if lock {
        lock := false;
      } else {
        b := b + "    ";
      }
      if j > 0 {
        IndentStep(lines, j, b);
      }
      b := b + lines[j] + "\n";
      j := j + 1;
    }
    if lines != [] {
      assert lines[1..|lines|] == lines[1..];
    }
  }

  /** Writing line `j` after four spaces extends the indented tail by that line. */
  lemma IndentStep(lines: seq<string>, j: nat, b: string)
    requires 0 < j < |lines|
    requires b == lines[0] + "\n" + Terminated(Prefixed(lines[1..j], "    ")) + "    "
    ensures b + lines[j] + "\n" == lines[0] + "\n" + Terminated(Prefixed(lines[1..j + 1], "    "))
  {
    var p := Prefixed(lines[1..j + 1], "    ");
    assert p[..j - 1] == Prefixed(lines[1..j], "    ");
    assert Terminated(p) == Terminated(p[..j - 1]) + p[j - 1] + "\n";
    var h := lines[0] + "\n";
    var t := Terminated(p[..j - 1]);
    AppendAssoc(h, t, "    ");
    AppendAssoc(h + t, "    ", lines[j]);
    AppendAssoc(h, t, "    " + lines[j]);
    AppendAssoc(h + (t + ("    " + lines[j])), "", "\n");
    AppendAssoc(h, t + ("    " + lines[j]), "\n");
    AppendAssoc(t, "    " + lines[j], "\n");
  }

  /** A header's names separated by commas, as both header loops write them. */
  method WriteNames(names: seq<string>) returns (b: string)
    ensures b == Join(names, ",")
  {
    b := "";
    var total := |names| - 1;
    var i := 0;
    while i < |names|
      invariant 0 <= i <= |names|
      invariant b == Join(names[..i], ",") + (if 0 < i < |names| then "," else "")
    {
      JoinStep(names, i, b);
      b := b + names[i];
      if i != total {
        b := b + ",";
      }
      i := i + 1;
    }
    assert names[..|names|] == names;
  }

  /** `marshalStruct`: one piece per entry, in entry order. */
  method MarshalStruct(v: Val) returns (r: Text)
    requires v.Rec?
    ensures r == RecordText(v)
    decreases v, 5
  {
    var final := "";
    ghost var pieces := EntryPieces(v);
    var i := 0;
    while i < |v.entries|
      invariant 0 <= i <= |v.entries|
      invariant JoinAll(pieces[..i], "") == Success(final)
    {
      var e := v.entries[i];
      var piece := WriteEntry(e.name, e.omitEmpty, e.val);
      if piece.Failure? {
        JoinAllFirstFailure(pieces, i, "");
        return piece;
      }
      JoinAllStep(pieces, i, final, "");
      final := final + piece.value;
      i := i + 1;
    }
    assert pieces[..|v.entries|] == pieces;
    r := Success(final);
  }

  /** The body of the `marshalStruct` loop for one entry. */
  method WriteEntry(name: string, omitEmpty: bool, x: Val) returns (piece: Text)
    ensures piece == EntryText(name, x)
    decreases x, 7
  {
    var final := "";
    var value := x;
    if value.NilPtr? {
      // `name : null` is written unless omitempty, then the nil pointer has no kind
      if !omitEmpty {
        final := final + name + " : null\n";
      }
      return Failure(UnknownKind);
    }
    if value.Ptr? {
      value := value.target;
    }
    assert EntryText(name, x) == EntryValue(name, value);
    match value {
      case Str(s) =>
        piece := Success(name + " : " + Quote(s) + "\n");
      case Int(n) =>
        piece := Success(name + " : " + Decimal(n) + "\n");
      case Float(t) =>
        piece := Success(name + " : " + t + "\n");
      case Bool(b) =>
        piece := Success(name + " : " + (if b then "true" else "false") + "\n");
      case Rec(_) =>
        var content := MarshalStruct(value);
        if content.Failure? {
          piece := Failure(content.error);
        } else {
          var indented := IndentLines(content.value);
          piece := Success(name + " :\n" + indented);
        }
      case Lst(elems, _) =>
        var s := ArrayMarshal(value);
        piece := Cat(Success(name + LengthTag(|elems|)), s);
      case _ =>
        piece := Failure(UnknownKind);
    }
  }

  /**
    `arrayMarshal`: writes scalars inline, hands the whole slice to the mixed
    writer at the first interface, slice, struct or map element, and fails at
    the first element of any other kind.
   */
  method ArrayMarshal(v: Val) returns (r: Text)
    requires v.Lst?
    ensures r == ArrayText(v)
    decreases v, 5
  {
    var builder, stop := WriteInlineRun(v);
    if stop == |v.elems| {
      if stop > 0 {
        ArrayTextInline(v);
      }
      return Success(builder);
    }
    ArrayTextStops(v, stop);
    var elem := v.elems[stop];
    if !v.elemIsAny && elem.Ptr? {
      elem := elem.target;
    }
    if v.elemIsAny || elem.Rec? || elem.Lst? {
      r := ArrayMixMarshal(v);
    } else {
      r := Failure(UnknownKind);
    }
  }

  /**
    The loop of `arrayMarshal`: writes the elements inline while they are
    scalars (a pointer element through its target), and stops at the first
    element it cannot write inline, where `arrayMarshal` leaves the loop
    for the mixed form or an error.
   */
  method WriteInlineRun(v: Val) returns (builder: string, stop: nat)
    requires v.Lst?
    ensures stop <= |v.elems|
    ensures forall k :: 0 <= k < stop ==> InlineOk(v, k)
    ensures stop < |v.elems| ==> !InlineOk(v, stop)
    ensures stop == |v.elems| ==> builder == InlineSoFar(v, stop)
  {
    var n := |v.elems|;
    builder := "";
    if n == 0 {
      builder := ": ";
    }
    var i := 0;
    while i < n
      invariant 0 <= i <= n
      invariant forall k :: 0 <= k < i ==> InlineOk(v, k)
      invariant builder == InlineSoFar(v, i)
    {
      var elem := v.elems[i];
      if !v.elemIsAny && elem.Ptr? {
        elem := elem.target;
      }
      assert elem == Elem(v, i);
      if v.elemIsAny || !IsScalar(elem) {
        return builder, i;
      }
      assert InlineOk(v, i);
      InlineSoFarNext(v, i);
      builder := WriteInline(builder, elem, i, n);
      i := i + 1;
    }
    return builder, n;
  }

  /** What follows an inline element: a comma, or after the last one a newline (none after a float). */
  ghost function PieceTail(x: Val, last: bool): string {
    if !last then "," else if x.Float? then "" else "\n"
  }

  /** What `arrayMarshal` writes for one inline element. */
  ghost function InlinePiece(x: Val, first: bool, last: bool): string
    requires IsScalar(x)
  {
    (if first then ": " else "") + ScalarText(x) + PieceTail(x, last)
  }

  /** What the inline writer has built after the first `i` elements. */
  ghost function InlineSoFar(v: Val, i: nat): string
    requires v.Lst? && i <= |v.elems|
    requires forall k :: 0 <= k < i ==> InlineOk(v, k)
  {
    if i == 0 then (if |v.elems| == 0 then ": " else "")
    else ": " + Join(InlineTexts(v, i), ",") + PieceTail(Elem(v, i - 1), i == |v.elems|)
  }

  /** One more inline element appends its piece. */
  lemma InlineSoFarNext(v: Val, i: nat)
    requires v.Lst? && i < |v.elems|
    requires forall k :: 0 <= k < i ==> InlineOk(v, k)
    requires InlineOk(v, i)
    ensures forall k :: 0 <= k < i + 1 ==> InlineOk(v, k)
    ensures InlineSoFar(v, i + 1) == InlineSoFar(v, i) + InlinePiece(Elem(v, i), i == 0, i + 1 == |v.elems|)
  {
    var s, tail := ScalarText(Elem(v, i)), PieceTail(Elem(v, i), i + 1 == |v.elems|);
    InlineTextsStep(v, i);
    if i == 0 {
      assert InlineSoFar(v, 1) == ": " + s + tail;
    } else {
      RunStep(InlineSoFar(v, i), ": ", Join(InlineTexts(v, i), ","), s, tail);
    }
  }

  /**
    One case of `arrayMarshal`'s switch: `: ` before the first element, the
    scalar's text, then a comma, or after the last element a newline (none
    after a float).
   */
  method WriteInline(builder: string, elem: Val, i: nat, n: nat) returns (after: string)
    requires IsScalar(elem) && i < n
    ensures after == builder + InlinePiece(elem, i == 0, i + 1 == n)
  {
    after := builder;
    if i == 0 {
      after := after + ": ";
    }
    var s := ScalarText(elem);
    if n - 1 == i {
      after := after + s;
      if !elem.Float? {
        after := after + "\n";
      }
    } else {
      after := after + s + ",";
    }
    AppendRegroup(builder, if i == 0 then ": " else "", s, PieceTail(elem, i + 1 == n));
  }

  /** One more inline element adds its text to the joined run. */
  lemma InlineTextsStep(v: Val, i: nat)
    requires v.Lst? && i < |v.elems|
    requires forall k :: 0 <= k < i ==> InlineOk(v, k)
    requires InlineOk(v, i)
    ensures Join(InlineTexts(v, i + 1), ",") ==
      if i == 0 then ScalarText(Elem(v, 0)) else Join(InlineTexts(v, i), ",") + "," + ScalarText(Elem(v, i))
  {
    assert InlineTexts(v, i + 1) == InlineTexts(v, i) + [ScalarText(Elem(v, i))];
    if i > 0 {
      JoinSnoc(InlineTexts(v, i), ScalarText(Elem(v, i)), ",");
    }
  }

  /**
    One row of a typed slice of records: every entry value through
    `marshalSolve`, separated by commas.
   */
  method WriteRow(x: Val) returns (r: Text)
    requires x.Rec?
    ensures r == JoinAll(RowCells(x), ",")
    decreases x, 0
  {
    ghost var cells := RowCells(x);
    ghost var joined := "";
    var es := x.entries;
    var total := |es| - 1;
    var row := "";
    var k := 0;
    while k < |es|
      invariant 0 <= k <= |es|
      invariant JoinAll(cells[..k], ",") == Success(joined)
      invariant row == joined + (if 0 < k < |es| then "," else "")
    {
      var s := MarshalSolve(es[k].val);
      if s.Failure? {
        JoinAllFirstFailure(cells, k, ",");
        return s;
      }
      CommaStep(cells, k, joined, row);
      joined := row + s.value;
      row := row + s.value;
      if k != total {
        row := row + ",";
      }
      k := k + 1;
    }
    assert cells[..|es|] == cells;
    assert row == joined;
    r := Success(row);
  }

  /**
    `arrayMixMarshal`: at the first record element the tabular form is tried
    and returned if it succeeds; otherwise one block piece per element.
   */
  method ArrayMixMarshal(v: Val) returns (r: Text)
    requires v.Lst?
    ensures r == MixText(v)
    decreases v, 4
  {
    var n := |v.elems|;
    var builder := "";
    if n == 0 {
      builder := ":\n";
    }
    var i := 0;
    while i < n
      invariant 0 <= i <= n
      invariant n == 0 ==> builder == ":\n"
      invariant 0 < i ==> Csv(v).Failure?
      invariant 0 < n ==> MixedSoFar(v, i, builder)
    {
      var table, piece := MixElement(v, i);
      if table.Success? {
        return table;
      }
      if piece.Failure? {
        MixStopsAt(v, i, builder);
        return piece;
      }
      MixedSoFarStep(v, i, builder);
      builder := builder + piece.value;
      i := i + 1;
    }
    if n > 0 {
      MixedAll(v, builder);
    }
    r := Success(builder);
  }

  /**
    One turn of `arrayMixMarshal`'s loop: at a struct or map element the
    table form is tried first, and when it succeeds it is the whole answer;
    otherwise the element's piece of the block form.
   */
  method MixElement(v: Val, i: nat) returns (table: Text, piece: Text)
    requires v.Lst? && i < |v.elems|
    ensures table.Success? ==> table == MixText(v)
    ensures table.Failure? ==> Csv(v).Failure? && piece == MixPiece(v, i)
    decreases v, 3
  {
    var elem := v.elems[i];
    if !v.elemIsAny && elem.Ptr? {
      elem := elem.target;
    }
    table := Failure(NotTabular);
    if elem.Rec? {
      table := CsvThing(v);
      if table.Success? {
        MixTextIsTable(v);
        return table, table;
      }
    } else {
      CsvNeedsRecords(v, i);
    }
    piece := WriteMixPiece(v, i);
  }

  /** When the table form succeeds, it is the whole block form. */
  lemma MixTextIsTable(v: Val)
    requires v.Lst? && 0 < |v.elems| && Csv(v).Success?
    ensures MixText(v) == Csv(v)
  {
  }

  /** A slice with an element that is not a record has no table form. */
  lemma CsvNeedsRecords(v: Val, i: nat)
    requires v.Lst? && i < |v.elems| && !v.elems[i].Rec?
    ensures Csv(v).Failure?
  {
  }

  /** The block writer's builder holds the first `i` pieces of the block form, concatenated. */
  ghost predicate MixedSoFar(v: Val, i: nat, builder: string)
    requires v.Lst? && i <= |v.elems|
  {
    JoinAll(MixPieces(v)[..i], "") == Success(builder)
  }

  lemma MixedSoFarStep(v: Val, i: nat, builder: string)
    requires v.Lst? && i < |v.elems|
    requires MixedSoFar(v, i, builder) && MixPiece(v, i).Success?
    ensures MixedSoFar(v, i + 1, builder + MixPiece(v, i).value)
  {
    JoinAllStep(MixPieces(v), i, builder, "");
  }

  /** A failing piece, with no table and no earlier failure, is the block form's error. */
  lemma MixStopsAt(v: Val, i: nat, builder: string)
    requires v.Lst? && i < |v.elems| && Csv(v).Failure?
    requires MixedSoFar(v, i, builder) && MixPiece(v, i).Failure?
    ensures MixText(v) == MixPiece(v, i)
  {
    JoinAllFirstFailure(MixPieces(v), i, "");
  }

  lemma MixedAll(v: Val, builder: string)
    requires v.Lst? && 0 < |v.elems| && Csv(v).Failure?
    requires MixedSoFar(v, |v.elems|, builder)
    ensures MixText(v) == Success(builder)
  {
    assert MixPieces(v)[..|v.elems|] == MixPieces(v);
  }


  /** The body of the `arrayMixMarshal` loop for element `i`, once the tabular form is ruled out. */
  method WriteMixPiece(v: Val, i: nat) returns (piece: Text)
    requires v.Lst? && i < |v.elems|
    ensures piece == MixPiece(v, i)
    decreases v, 1
  {
    var elem := v.elems[i];
    if !v.elemIsAny && elem.Ptr? {
      elem := elem.target;
    }
    match elem {
      case Str(s) =>
        piece := Success(Opener(i) + "  - " + Quote(s) + "\n");
      case Int(k) =>
        piece := Success(Opener(i) + "  - " + Decimal(k) + "\n");
      case Float(t) =>
        piece := Success(Opener(i) + "  - " + t + "\n");
      case Bool(b) =>
        piece := Success(Opener(i) + "  - " + (if b then "true" else "false") + "\n");
      case Rec(_) =>
        piece := WriteMixRecord(v, i, elem);
      case Lst(es, _) =>
        var s := ArrayMarshal(elem);
        piece := Cat(Success(Opener(i) + "  - " + LengthTag(|es|)), s);
      case _ =>
        piece := Failure(UnknownKind);
    }
  }

  /** The record branch of the `arrayMixMarshal` loop. */
  method WriteMixRecord(v: Val, i: nat, elem: Val) returns (piece: Text)
    requires v.Lst? && i < |v.elems| && elem.Rec?
    requires elem == (if !v.elemIsAny && v.elems[i].Ptr? then v.elems[i].target else v.elems[i])
    ensures piece == MixPiece(v, i)
    decreases v, 0
  {
    var head := "";
    if i == 0 {
      if !v.elemIsAny {
        var names := WriteNames(Names(elem.entries));
        head := "{" + names + "}:\n";
      } else {
        head := ":\n";
      }
    }
    if !v.elemIsAny {
      var row := WriteRow(elem);
      piece := Cat(Cat(Success(head + "  "), row), Success("\n"));
    } else {
      var content := MarshalStruct(elem);
      if content.Failure? {
        piece := Failure(content.error);
      } else {
        var indented := IndentAfterFirst(content.value);
        piece := Success(head + "  - " + indented);
      }
    }
  }

  /** The cells of one row of the table: one per column, `null` where the element has no such key. */
  method WriteCsvCells(x: Val, entrys: map<string, Val>, names: seq<string>) returns (r: Text)
    requires x.Rec? && entrys == RowMap(x.entries)
    ensures r == JoinAll(CsvCells(x, names), ",")
    decreases x, 1
  {
    ghost var cells := CsvCells(x, names);
    ghost var joined := "";
    var total := |names| - 1;
    var row := "";
    var k := 0;
    while k < |names|
      invariant 0 <= k <= |names|
      invariant JoinAll(cells[..k], ",") == Success(joined)
      invariant row == joined + (if 0 < k < |names| then "," else "")
    {
      var s := CellText(x, entrys, names[k]);
      if s.Failure? {
        JoinAllFirstFailure(cells, k, ",");
        return s;
      }
      CommaStep(cells, k, joined, row);
      joined := row + s.value;
      row := row + s.value;
      if k != total {
        row := row + ",";
      }
      k := k + 1;
    }
    assert cells[..|names|] == cells;
    assert row == joined;
    r := Success(row);
  }

  /** One more cell written after a comma-separated prefix extends the join of the cells. */
  lemma CommaStep<E>(cells: seq<Result<string, E>>, k: nat, joined: string, row: string)
    requires k < |cells| && cells[k].Success?
    requires JoinAll(cells[..k], ",") == Success(joined)
    requires row == joined + (if 0 < k < |cells| then "," else "")
    ensures JoinAll(cells[..k + 1], ",") == Success(row + cells[k].value)
  {
    JoinAllStep(cells, k, joined, ",");
    if k == 0 {
      assert cells[..k] == [];
      assert row + cells[k].value == cells[k].value;
    } else {
      assert row + cells[k].value == joined + "," + cells[k].value;
    }
  }

  /** One cell: the element's value for `name` through `marshalSolve`, or `null`. */
  method CellText(x: Val, entrys: map<string, Val>, name: string) returns (s: Text)
    requires x.Rec? && entrys == RowMap(x.entries)
    ensures s == Cell(x, name)
    decreases x, 0
  {
    RowMapLookup(x.entries, name);
    if name !in entrys {
      s := Success("null");
    } else {
      var val := entrys[name];
      assert val == x.entries[LastIndex(x.entries, name).value].val;
      s := MarshalSolve(val);
    }
  }

  /**
    `doTheCSVThingORNothing`: collects the key union and a map per element,
    then writes the header and one row per element.
   */
  method CsvThing(v: Val) returns (r: Text)
    requires v.Lst?
    ensures r == Csv(v)
    decreases v, 1
  {
    var n := |v.elems|;
    var tabular, allnames, allEntrys := CollectColumns(v);
    if !tabular {
      return Failure(NotTabular);
    }
    CsvWhenTabular(v, allnames);
    var names := WriteNames(allnames);
    var builder := "{" + names + "}:\n";
    ghost var rows := CsvRows(v, allnames);
    ghost var body := "";
    assert rows[..0] == [];
    var j := 0;
    while j < n
      invariant 0 <= j <= n
      invariant JoinAll(rows[..j], "") == Success(body)
      invariant builder == TableHeader(allnames) + body
    {
      var cells := WriteCsvCells(v.elems[j], allEntrys[j], allnames);
      var row := Cat(Cat(Success("  "), cells), Success("\n"));
      assert row == rows[j];
      if row.Failure? {
        JoinAllFirstFailure(rows, j, "");
        return row;
      }
      JoinAllStep(rows, j, body, "");
      AppendAssoc(TableHeader(allnames), body, row.value);
      builder := builder + row.value;
      body := body + row.value;
      j := j + 1;
    }
    assert rows[..n] == rows;
    r := Success(builder);
  }

  /**
    The first loop of `doTheCSVThingORNothing`: fails at the first element
    that is not a record, and otherwise gives the key union in first-seen
    order and one map per element, where a repeated key keeps its last value.
   */
  method CollectColumns(v: Val) returns (tabular: bool, allnames: seq<string>, allEntrys: seq<map<string, Val>>)
    requires v.Lst?
    ensures tabular <==> forall j :: 0 <= j < |v.elems| ==> v.elems[j].Rec?
    ensures tabular ==> allnames == KeyUnion(v.elems)
    ensures tabular ==> |allEntrys| == |v.elems|
    ensures tabular ==> forall j :: 0 <= j < |v.elems| ==> allEntrys[j] == RowMap(v.elems[j].entries)
  {
    var n := |v.elems|;
    allnames := [];
    allEntrys := [];
    var i := 0;
    while i < n
      invariant 0 <= i <= n
      invariant forall j :: 0 <= j < i ==> v.elems[j].Rec?
      invariant allnames == KeyUnion(v.elems[..i])
      invariant |allEntrys| == i
      invariant forall j :: 0 <= j < i ==> allEntrys[j] == RowMap(v.elems[j].entries)
    {
      var elem := v.elems[i];
      if !elem.Rec? {
        assert !v.elems[i].Rec?;
        return false, allnames, allEntrys;
      }
      var entryM;
      allnames, entryM := AddKeys(allnames, elem.entries, AllNames(v.elems[..i]));
      assert v.elems[..i + 1][..i] == v.elems[..i];
      allEntrys := allEntrys + [entryM];
      i := i + 1;
    }
    assert v.elems[..n] == v.elems;
    tabular := true;
  }

  /**
    The inner loop of `doTheCSVThingORNothing` for one element: appends the
    names not seen yet and builds the element's map.
   */
  method AddKeys(names: seq<string>, entrys: seq<Entry>, ghost before: seq<string>)
    returns (allnames: seq<string>, entryM: map<string, Val>)
    requires names == Dedup(before)
    ensures allnames == Dedup(before + Names(entrys))
    ensures entryM == RowMap(entrys)
  {
    allnames := names;
    entryM := map[];
    assert before + Names(entrys[..0]) == before;
    var k := 0;
    while k < |entrys|
      invariant 0 <= k <= |entrys|
      invariant allnames == Dedup(before + Names(entrys[..k]))
      invariant entryM == RowMap(entrys[..k])
    {
      ghost var seen := before + Names(entrys[..k]);
      DedupSnoc(seen, entrys[k].name);
      NamesSnoc(entrys, k);
      AppendAssoc(before, Names(entrys[..k]), [entrys[k].name]);
      assert entrys[..k + 1][..k] == entrys[..k];
      if entrys[k].name !in allnames {
        allnames := allnames + [entrys[k].name];
      }
      entryM := entryM[entrys[k].name := entrys[k].val];
      k := k + 1;
    }
    assert entrys[..|entrys|] == entrys;
  }
}
