/**
  The decoder of goon/unmarshal.go as it runs: a scanner cursor over the
  lines, the loop's mutable state and the destination, changed in place
  line by line. Every method is proved against the functions of module
  UnmarshalSpec.
 */
module UnmarshalImpl {
  import opened Wrappers
  import opened GoText
  import opened Classify
  import opened UnmarshalSpec

  /** The `structMap` loop: every field's tag to its position, later fields overwriting earlier ones. */
  method BuildIndex(fields: seq<Field>) returns (index: map<string, nat>)
    ensures index == TagIndex(Tags(fields))
  {
    index := map[];
    for i := 0 to |fields|
      invariant index == TagIndex(Tags(fields)[..i])
    {
      assert Tags(fields)[..i + 1][..i] == Tags(fields)[..i];
      index := index[fields[i].tag := i];
    }
    assert Tags(fields)[..|fields|] == Tags(fields);
  }

  /** The `innerMap` loop: as `BuildIndex`, skipping untagged fields. */
  method BuildElemIndex(tags: seq<string>) returns (emap: map<string, nat>)
    ensures emap == ElemIndex(tags)
  {
    emap := map[];
    for i := 0 to |tags|
      invariant emap == ElemIndex(tags[..i])
    {
      assert tags[..i + 1][..i] == tags[..i];
      if tags[i] == "" {
        continue;
      }
      emap := emap[tags[i] := i];
    }
    assert tags[..|tags|] == tags;
  }

  /** The loop over a row's cells (goon/unmarshal.go:339-350): each one recognized and stored under its column name. */
  method ReadRow(cells: seq<string>, order: seq<string>, floatOk: FloatSyntax) returns (r: Result<map<string, Scalar>, DecodeError>)
    ensures r == RowSoFar(cells, order, floatOk, |cells|)
  {
    var maps: map<string, Scalar> := map[];
    for j := 0 to |cells|
      invariant RowSoFar(cells, order, floatOk, j) == Success(maps)
    {
      var next := ReadCell(cells, order, floatOk, j, maps);
      if next.Failure? {
        RowFailureSticks(cells, order, floatOk, j + 1, |cells|);
        return next;
      }
      maps := next.value;
    }
    return Success(maps);
  }

  /** One turn of that loop: cell `j` under name `j`, a panic past the names, or the cell's error. */
  method ReadCell(cells: seq<string>, order: seq<string>, floatOk: FloatSyntax, j: nat, maps: map<string, Scalar>)
    returns (r: Result<map<string, Scalar>, DecodeError>)
    requires j < |cells| && RowSoFar(cells, order, floatOk, j) == Success(maps)
    ensures r == RowSoFar(cells, order, floatOk, j + 1)
  {
    if j >= |order| {
      return Failure(Panic(TooManyCells));
    }
    var value := Classify.Classify(cells[j], floatOk);
    if value.Failure? {
      return Failure(BadToken(value.error));
    }
    return Success(maps[order[j] := value.value]);
  }

  /** The loop over a row's cells with null cells left out (goon/unmarshal.go:140-145, 159-166). */
  method DropNullCells(row: map<string, Scalar>) returns (temp: map<string, Scalar>)
    ensures temp == DropNulls(row)
  {
    temp := map[];
    var todo := row.Keys;
    while todo != {}
      invariant todo <= row.Keys
      invariant forall k :: k in temp <==> k in row && k !in todo && row[k] != SNull
      invariant forall k :: k in temp ==> temp[k] == row[k]
      decreases todo
    {
      var k :| k in todo;
      if row[k] != SNull {
        temp := temp[k := row[k]];
      }
      todo := todo - {k};
    }
  }

  /** A `[]map[string]any` from the rows. */
  method BuildMapRows(rows: seq<map<string, Scalar>>) returns (result: seq<map<string, Scalar>>)
    ensures result == MapElemRows(rows)
  {
    result := [];
    for i := 0 to |rows|
      invariant |result| == i && forall k :: 0 <= k < i ==> result[k] == DropNulls(rows[k])
    {
      var temp := DropNullCells(rows[i]);
      result := result + [temp];
    }
  }

  /** One struct element: every cell whose column names an element field, and which is not null, is set. */
  method BuildElement(row: map<string, Scalar>, tags: seq<string>, emap: map<string, nat>) returns (elem: seq<Option<Scalar>>)
    requires PointsInto(emap, tags)
    ensures elem == BuildElem(row, tags, emap)
  {
    elem := seq(|tags|, _ => None);
    var todo := row.Keys;
    while todo != {}
      invariant todo <= row.Keys && |elem| == |tags|
      invariant forall p :: 0 <= p < |tags| ==>
        elem[p] == (var t := tags[p];
          if t in emap && emap[t] == p && t in row && t !in todo && row[t] != SNull then Some(row[t]) else None)
      decreases todo
    {
      var j :| j in todo;
      if j in emap && row[j] != SNull {
        elem := elem[emap[j] := Some(row[j])];
      }
      todo := todo - {j};
    }
  }

  /** The `reflect.Append` loop closing `multipleLineList`: a null element panics. */
  method AppendElements(elems: seq<Scalar>) returns (r: Result<Option<seq<Scalar>>, DecodeError>)
    ensures r == ListReturn(Listed(elems))
  {
    for k := 0 to |elems|
      invariant forall j :: 0 <= j < k ==> elems[j] != SNull
    {
      if elems[k] == SNull {
        return Failure(Panic(AppendZeroValue));
      }
    }
    return Success(Some(elems));
  }

  lemma ElemRowsGrow(result: seq<seq<Option<Scalar>>>, rows: seq<map<string, Scalar>>, tags: seq<string>, emap: map<string, nat>, i: nat, elem: seq<Option<Scalar>>)
    requires i < |rows| && |result| == i && elem == BuildElem(rows[i], tags, emap)
    requires forall k :: 0 <= k < i ==> result[k] == BuildElem(rows[k], tags, emap)
    ensures forall k :: 0 <= k < i + 1 ==> (result + [elem])[k] == BuildElem(rows[k], tags, emap)
  {
  }

  /** A slice of structs from the rows. */
  method BuildStructRows(rows: seq<map<string, Scalar>>, tags: seq<string>) returns (result: seq<seq<Option<Scalar>>>)
    ensures result == StructElemRows(rows, tags)
  {
    var emap := BuildElemIndex(tags);
    ElemIndexPointsInto(tags);
    result := [];
    for i := 0 to |rows|
      invariant |result| == i && forall k :: 0 <= k < i ==> result[k] == BuildElem(rows[k], tags, emap)
    {
      var elem := BuildElement(rows[i], tags, emap);
      ElemRowsGrow(result, rows, tags, emap, i, elem);
      result := result + [elem];
    }
  }

  /** The line loop of `Unmarshal`, with its scanner and state. */
  class Decoder {
    const lines: seq<string>
    const index: map<string, nat>
    const floatOk: FloatSyntax
    var cursor: nat
    var lastIndent: nat
    var saveName: string
    var nested: string
    var target: Target

    ghost function State(): Machine
      reads this
    {
      Machine(cursor, lastIndent, saveName, nested, target)
    }

    ghost predicate Valid()
      reads this
    {
      cursor <= |lines| && Fits(index, target)
    }

    constructor (lines: seq<string>, index: map<string, nat>, target: Target, floatOk: FloatSyntax)
      requires Fits(index, target)
      ensures this.lines == lines && this.index == index && this.floatOk == floatOk
      ensures State() == Start(target) && Valid()
    {
      this.lines := lines;
      this.index := index;
      this.floatOk := floatOk;
      cursor := 0;
      lastIndent := 0;
      saveName := "";
      nested := "";
      this.target := target;
    }

    /** `scanner.Scan()` then `scanner.Text()`: "" once the input is used up. */
    method Scan() returns (text: string)
      requires cursor <= |lines|
      modifies this`cursor
      ensures text == LineAt(lines, old(cursor)) && cursor == After(lines, old(cursor), 1)
    {
      if cursor < |lines| {
        text := lines[cursor];
        cursor := cursor + 1;
      } else {
        text := "";
      }
    }

    /** `csvLike`: `length` rows read from the shared scanner. */
    method CsvLike(length: nat, order: seq<string>, sep: char) returns (r: Result<seq<map<string, Scalar>>, DecodeError>)
      requires cursor <= |lines|
      modifies this`cursor
      ensures r == CsvSoFar(lines, old(cursor), length, order, sep, floatOk)
      ensures r.Success? ==> cursor == After(lines, old(cursor), length)
      ensures cursor <= |lines|
    {
      ghost var start := cursor;
      var maplists := [];
      for k := 0 to length
        invariant cursor == After(lines, start, k)
        invariant CsvSoFar(lines, start, k, order, sep, floatOk) == Success(maplists)
      {
        ScanNext(lines, start, k);
        var text := Scan();
        ghost var line := text;
        text := TrimSpace(text);
        var splited := Split(text, sep);
        var maps := ReadRow(splited, order, floatOk);
        assert maps == Row(line, order, sep, floatOk);
        RowOfAt(lines, start, order, sep, floatOk, k);
        CollectNext(k, RowOf(lines, start, order, sep, floatOk), maplists);
        if maps.Failure? {
          CollectFailureSticks(k + 1, length, RowOf(lines, start, order, sep, floatOk));
          return Failure(maps.error);
        }
        maplists := maplists + [maps.value];
      }
      return Success(maplists);
    }

    /**
      `multipleLineList`: `length` lines starting with '-' read from the
      shared scanner, other lines skipped. The source loops forever once the
      input is used up; the model stops there with `NeverReturns`.
     */
    method MultipleLineList(length: nat, ghost parsed: seq<ListLine>) returns (r: Result<Option<seq<Scalar>>, DecodeError>)
      requires cursor <= |lines| && ParsedFrom(parsed, lines, floatOk)
      modifies this`cursor
      ensures var read := ListScan(parsed, old(cursor), length);
        r == ListReturn(read.outcome) && cursor == read.next
    {
      ghost var start := cursor;
      var elems: seq<Scalar> := [];
      var i: int := 0;
      while i < length
        invariant 0 <= i <= length && cursor <= |lines|
        invariant ListScan(parsed, start, length) == Prepend(elems, ListScan(parsed, cursor, length - i))
        decreases |lines| - cursor
      {
        if cursor == |lines| {
          // every further scan yields "", which never starts with '-'
          return Failure(NeverReturns);
        }
        ghost var pos := cursor;
        var line := ReadListLine(parsed);
        match line {
          case Skipped =>
            ListScanSkip(parsed, pos, length - i);
            i := i - 1;   // undone by the loop's increment: the line does not count
          case NoSpace =>
            return Failure(Panic(NoSpaceAfterDash));
          case Unrecognized =>
            return Success(None);   // the invalid Value, and a nil error
          case Element(x) =>
            ListElementStep(parsed, start, length, pos, i, elems, x);
            elems := elems + [x];
        }
        i := i + 1;
      }
      assert elems + [] == elems;
      assert ListScan(parsed, start, length) == ListRead(Listed(elems), cursor);
      r := AppendElements(elems);
    }

    /** The scan and the reading of one line in `multipleLineList`. */
    method ReadListLine(ghost parsed: seq<ListLine>) returns (line: ListLine)
      requires cursor < |lines| && ParsedFrom(parsed, lines, floatOk)
      modifies this`cursor
      ensures line == parsed[old(cursor)] && cursor == old(cursor) + 1
    {
      ghost var pos := cursor;
      var text := Scan();
      line := ListLineOf(text, floatOk);
      assert line == ParsedAt(parsed, pos);
    }

    /** One turn of the line loop (goon/unmarshal.go:55-262). */
    method DecodeLine() returns (err: Option<DecodeError>)
      requires Valid() && cursor < |lines|
      modifies this`cursor, this`lastIndent, this`saveName, this`nested, this`target
      ensures Valid()
      ensures var r := Step(lines, index, floatOk, old(State()));
        if r.Success? then err.None? && State() == r.value else err == Some(r.error) && target == old(target)
    {
      ghost var m := State();
      var text := Scan();
      var strDoubleDot := SplitN2(text, ':');
      if |strDoubleDot| == 1 {
        return Some(Panic(NoColon));
      }
      var key, value := strDoubleDot[0], strDoubleDot[1];
      StepSplit(lines, index, floatOk, m, key, value);
      err := TurnLine(ViewOf(key, value, floatOk), text, m);
    }

    /** The loop body once the line at `m`'s cursor has been read, split at its first ':' and read as `view`. */
    method TurnLine(view: LineView, text: string, ghost m: Machine) returns (err: Option<DecodeError>)
      requires m.cursor < |lines| && Fits(index, m.target) && text == lines[m.cursor] && ViewOk(view)
      requires State() == m.(cursor := m.cursor + 1)
      modifies this`cursor, this`lastIndent, this`saveName, this`nested, this`target
      ensures Valid()
      ensures var r := Turn(lines, index, floatOk, m, view);
        if r.Success? then err.None? && State() == r.value else err == Some(r.error) && target == old(target)
    {
      var name := if view.tval == "" then view.tkey else saveName;
      if view.ind > lastIndent {
        saveName, lastIndent, nested := name, view.ind, nested + text;
        return None;
      }
      saveName := name;
      err := Dispatch(view);
    }

    /** The three branches of the loop body for a line that is not buffered. */
    method Dispatch(view: LineView) returns (err: Option<DecodeError>)
      requires Valid() && ViewOk(view)
      modifies this`cursor, this`target
      ensures Valid()
      ensures var r := Branch(lines, index, floatOk, old(State()), view);
        if r.Success? then err.None? && State() == r.value else err == Some(r.error) && target == old(target)
    {
      if view.table.Some? && view.tval == "" {
        err := TableBlock(view.table.value);
        return;
      }
      if view.list.Some? && view.tval == "" {
        err := ListBlock(view.base, view.list.value);
        return;
      }
      err := ScalarLine(view);
    }

    /** The tabular branch after its header (goon/unmarshal.go:70-173). */
    method TableBlock(h: TableHead) returns (err: Option<DecodeError>)
      requires Valid() && PositiveCount(h.count)
      modifies this`cursor, this`target
      ensures Valid()
      ensures var r := TableStep(lines, index, floatOk, old(State()), h);
        if r.Success? then err.None? && State() == r.value else err == Some(r.error) && target == old(target)
    {
      var length := CountValue(h.count);
      if length.None? {
        return Some(TableCount(h.count));
      }
      var sliceObject := CsvLike(length.value, Split(h.fields, h.sep), h.sep);
      if sliceObject.Failure? {
        return Some(sliceObject.error);
      }
      var rows := sliceObject.value;
      err := None;
      match target
      case StructTarget(fs) =>
        if h.name !in index {
          return None;
        }
        var pos := index[h.name];
        var field := fs[pos];
        if SlotKind(field.slot) != SliceKind {
          return Some(CsvOnNonSlice);
        }
        match field.slot.elem {
          case StructElems(tags) =>
            var newSlice := BuildStructRows(rows, tags);
            target := StructTarget(fs[pos := field.(val := StructRows(newSlice))]);
          case MapElems =>
            var result := BuildMapRows(rows);
            target := StructTarget(fs[pos := field.(val := MapRows(result))]);
          case OtherElems =>
        }
      case MapTarget(mp) =>
        var result := BuildMapRows(rows);
        target := MapTarget(mp[h.name := MapRows(result)]);
      case OtherTarget =>
    }

    /** The list branch after its header (goon/unmarshal.go:174-215). */
    method ListBlock(name: string, h: ListHead) returns (err: Option<DecodeError>)
      requires Valid() && PositiveCount(h.count)
      modifies this`cursor, this`target
      ensures Valid()
      ensures var r := ListStep(lines, index, floatOk, old(State()), name, h);
        if r.Success? then err.None? && State() == r.value else err == Some(r.error) && target == old(target)
    {
      var listLength := CountValue(h.count);
      if listLength.None? {
        return Some(ListCount(h.count));
      }
      ListLinesParsed(lines, floatOk);
      var slice := MultipleLineList(listLength.value, ListLines(lines, floatOk));
      if slice.Failure? {
        return Some(slice.error);
      }
      err := None;
      match target
      case StructTarget(fs) =>
        var pos := FieldPos(index, name);
        if pos >= |fs| {
          return Some(Panic(NoFields));
        }
        var value := if slice.value.Some? then AnyList(slice.value.value) else Zero;
        var kind := if slice.value.Some? then SliceKind else InvalidKind;
        var updated := Assign(fs, pos, value, kind);
        if updated.Failure? {
          return Some(updated.error);
        }
        target := StructTarget(updated.value);
      case MapTarget(mp) =>
        if slice.value.Some? {
          target := MapTarget(mp[name := AnyList(slice.value.value)]);
        } else {
          target := MapTarget(mp - {name});
        }
      case OtherTarget =>
    }

    /** A `key : value` line (goon/unmarshal.go:217-261 and `signToStruct`). */
    method ScalarLine(view: LineView) returns (err: Option<DecodeError>)
      requires Valid()
      modifies this`target
      ensures Valid()
      ensures var r := ScalarStep(index, old(State()), view);
        if r.Success? then err.None? && State() == r.value else err == Some(r.error) && target == old(target)
    {
      var posVal := view.token;
      if posVal.Failure? {
        return Some(BadToken(posVal.error));
      }
      if posVal.value.SNull? {
        return None;
      }
      err := None;
      match target
      case StructTarget(fs) =>
        var pos := FieldPos(index, view.base);
        if view.ind < lastIndent {
          return None;   // the re-decode of the nested buffer, which changes nothing
        }
        if pos >= |fs| {
          return Some(Panic(NoFields));
        }
        var updated := Assign(fs, pos, One(posVal.value), ScalarKind(posVal.value));
        if updated.Failure? {
          return Some(updated.error);
        }
        target := StructTarget(updated.value);
      case MapTarget(mp) =>
        if view.ind < lastIndent {
          return None;
        }
        target := MapTarget(mp[view.tkey := One(posVal.value)]);
      case OtherTarget =>
    }

    /** `for scanner.Scan() { ... }`: every line until the input ends or a line fails. */
    method Run() returns (err: Option<DecodeError>)
      requires Valid()
      modifies this
      ensures (target, err) == RunFrom(lines, index, floatOk, old(State()))
    {
      while cursor < |lines|
        invariant Valid()
        invariant RunFrom(lines, index, floatOk, old(State())) == RunFrom(lines, index, floatOk, State())
        decreases |lines| - cursor
      {
        ghost var before := State();
        err := DecodeLine();
        if err.Some? {
          return;
        }
      }
      return None;
    }
  }

  /** An element line read by the loop of `multipleLineList` keeps its invariant. */
  lemma ListElementStep(parsed: seq<ListLine>, start: nat, length: nat, pos: nat, i: nat, elems: seq<Scalar>, x: Scalar)
    requires start <= pos < |parsed| && i < length && parsed[pos] == Element(x)
    requires ListScan(parsed, start, length) == Prepend(elems, ListScan(parsed, pos, length - i))
    ensures ListScan(parsed, start, length) == Prepend(elems + [x], ListScan(parsed, pos + 1, length - (i + 1)))
  {
    ListScanElement(parsed, pos, length - i, x);
    PrependAppend(elems, x, ListScan(parsed, pos + 1, length - (i + 1)));
  }

  /** Appending to the elements read so far is prepending to what the rest of the read gives. */
  lemma PrependAppend(elems: seq<Scalar>, x: Scalar, rest: ListRead)
    ensures Prepend(elems, Prepend([x], rest)) == Prepend(elems + [x], rest)
  {
    if rest.outcome.Listed? {
      assert elems + ([x] + rest.outcome.xs) == elems + [x] + rest.outcome.xs;
    }
  }

  /** `Unmarshal(data, v)`: the destination after the call and the error. */
  method Unmarshal(data: string, v: Dest, floatOk: FloatSyntax) returns (result: Dest, err: Option<DecodeError>)
    ensures (result, err) == Decode(data, v, floatOk)
  {
    if v.UntypedNil? {
      return v, Some(Panic(NilArgument));
    }
    if !v.PointerTo? {
      return v, Some(NotNonNilPointer);
    }
    var structMap: map<string, nat> := map[];
    if v.target.StructTarget? {
      structMap := BuildIndex(v.target.fields);
    }
    var decoder := new Decoder(Lines(data), structMap, v.target, floatOk);
    err := decoder.Run();
    result := PointerTo(decoder.target);
  }
}
