/**
  The decoder of goon/unmarshal.go as specification functions: the
  destination and its slot kinds, the struct tag index, the two header
  matchers, the counted block readers `csvLike` and `multipleLineList`,
  one turn of the line loop, and the whole loop.
 */
module UnmarshalSpec {
  import opened Wrappers
  import opened GoText
  import opened Classify

  // ---------------------------------------------------------------------------
  // Destinations

  /** The `reflect.Kind`s the decoder compares. */
  datatype Kind =
    | InvalidKind | BoolKind | IntKind | FloatKind | StringKind
    | SliceKind | InterfaceKind | PointerKind | OtherKind

  /** The element type of a slice field, as far as the tabular branch tells them apart. */
  datatype ElemType = StructElems(tags: seq<string>) | MapElems | OtherElems

  /** The static type of a struct field. */
  datatype Slot =
    | IntSlot | BoolSlot | FloatSlot | StringSlot
    | SliceSlot(elem: ElemType)
    | AnySlot                 // an interface field
    | OtherSlot               // any other kind: int64, a struct, a map, ...
    | PtrSlot(to: Slot)       // a non-nil pointer
    | NilPtrSlot              // a nil pointer

  /** What a field (or the pointee of a pointer field) or a map entry holds. */
  datatype Decoded =
    | Zero                                        // the zero value, never assigned
    | One(x: Scalar)                              // a value from recognizeType
    | AnyList(xs: seq<Scalar>)                    // the []any of multipleLineList
    | StructRows(elems: seq<seq<Option<Scalar>>>) // a slice of structs: per element, per field
    | MapRows(rows: seq<map<string, Scalar>>)     // a []map[string]any

  datatype Field = Field(tag: string, slot: Slot, val: Decoded)

  /** What the pointer handed to `Unmarshal` points to. */
  datatype Target =
    | StructTarget(fields: seq<Field>)
    | MapTarget(entries: map<string, Decoded>)
    | OtherTarget               // any other kind: no line is ever assigned

  /** The `v any` handed to `Unmarshal`. */
  datatype Dest =
    | UntypedNil                // a nil interface: `reflect.ValueOf(nil)` has no type
    | NotPointer
    | NilPointer
    | PointerTo(target: Target)

  /** Where the source panics instead of returning an error. */
  datatype PanicReason =
    | NilArgument        // `rv.Type()` on the Value of an untyped nil
    | NoColon            // `strDoubleDot[1]` on a line without ':'
    | NoSpaceAfterDash   // `splited[1]` on a list line without a space
    | TooManyCells       // `orderList[j]` on a row with more cells than names
    | NoFields           // `rv.Field(0)` on a struct without fields
    | SetZeroValue       // `field.Set` with or on the invalid Value
    | AppendZeroValue    // `reflect.Append` of a null list element

  datatype DecodeError =
    | NotNonNilPointer                // `goon: v must be a non-nil pointer`
    | BadToken(e: ClassError)         // recognizeType's error, returned as is
    | TableCount(token: string)       // Atoi of a tabular count beyond the int range
    | ListCount(token: string)        // `goon: error parsing mixed list -> ...`
    | CsvOnNonSlice                   // `invalid type can only unmarshal a csv like object on slices`
    | Mismatch(from: Kind, to: Kind)  // `goon: trying to assign X to Y`
    | Panic(why: PanicReason)
    | NeverReturns                    // not an error value: the list reader spins forever

  function SlotKind(s: Slot): (k: Kind)
    ensures k == SliceKind <==> s.SliceSlot?
  {
    match s
    case IntSlot => IntKind
    case BoolSlot => BoolKind
    case FloatSlot => FloatKind
    case StringSlot => StringKind
    case SliceSlot(_) => SliceKind
    case AnySlot => InterfaceKind
    case OtherSlot => OtherKind
    case PtrSlot(_) => PointerKind
    case NilPtrSlot => PointerKind
  }

  /** The kind `signToStruct` compares: a pointer field is followed once; a nil one gives the invalid Value. */
  function FieldKind(s: Slot): Kind
  {
    match s
    case PtrSlot(t) => SlotKind(t)
    case NilPtrSlot => InvalidKind
    case _ => SlotKind(s)
  }

  /** The kind of the `reflect.Value` that recognizeType returns. */
  function ScalarKind(x: Scalar): (k: Kind)
    ensures k == InvalidKind <==> x.SNull?
  {
    match x
    case SBool(_) => BoolKind
    case SNull => InvalidKind
    case SInt(_) => IntKind
    case SFloat(_) => FloatKind
    case SStrList(_) => SliceKind
    case SStr(_) => StringKind
  }

  // ---------------------------------------------------------------------------
  // Tag indexes

  function Tags(fields: seq<Field>): (r: seq<string>)
    ensures |r| == |fields| && forall i :: 0 <= i < |fields| ==> r[i] == fields[i].tag
  {
    seq(|fields|, i requires 0 <= i < |fields| => fields[i].tag)
  }

  /**
    `structMap`: every tag, the empty tag of untagged fields included, maps
    to the position of the last field carrying it.
   */
  function TagIndex(tags: seq<string>): (idx: map<string, nat>)
    ensures forall t :: t in idx <==> t in tags
    ensures forall t :: t in idx ==>
      idx[t] < |tags| && tags[idx[t]] == t && forall j :: idx[t] < j < |tags| ==> tags[j] != t
  {
    if tags == [] then map[]
    else TagIndex(tags[..|tags| - 1])[tags[|tags| - 1] := |tags| - 1]
  }

  /** `innerMap`: as `structMap`, but untagged element fields are left out. */
  function ElemIndex(tags: seq<string>): (idx: map<string, nat>)
    ensures forall t :: t in idx <==> t != "" && t in tags
    ensures forall t :: t in idx ==>
      idx[t] < |tags| && tags[idx[t]] == t && forall j :: idx[t] < j < |tags| ==> tags[j] != t
  {
    if tags == [] then map[]
    else
      var init, last := tags[..|tags| - 1], tags[|tags| - 1];
      var idx := ElemIndex(init);
      ElemIndexStep(init, last, idx);
      assert tags == init + [last];
      if last == "" then idx else idx[last := |init|]
  }

  lemma ElemIndexStep(init: seq<string>, last: string, idx: map<string, nat>)
    requires forall t :: t in idx <==> t != "" && t in init
    requires forall t :: t in idx ==>
      idx[t] < |init| && init[idx[t]] == t && forall j :: idx[t] < j < |init| ==> init[j] != t
    ensures var r, tags := (if last == "" then idx else idx[last := |init|]), init + [last];
      && (forall t :: t in r <==> t != "" && t in tags)
      && (forall t :: t in r ==> r[t] < |tags| && tags[r[t]] == t && forall j :: r[t] < j < |tags| ==> tags[j] != t)
  {
    var tags := init + [last];
    assert forall j :: 0 <= j < |init| ==> tags[j] == init[j];
  }

  /** `structMap[name].Pos`: a missing name gives the zero `posStruct`, so field 0. */
  function FieldPos(index: map<string, nat>, name: string): nat
  {
    if name in index then index[name] else 0
  }

  /** Every position in the index names a field of the target. */
  predicate Fits(index: map<string, nat>, t: Target)
  {
    t.StructTarget? ==> forall k :: k in index ==> index[k] < |t.fields|
  }

  // ---------------------------------------------------------------------------
  // Indentation

  /**
    The indentation of a line: the spaces of its key part once the first
    occurrence of the trimmed key is removed, so trailing spaces count as
    well as leading ones.
   */
  function Indentation(key: string): (n: nat)
    // only the characters around the trimmed key are counted
    ensures n <= |key| - |TrimSpace(key)|
  {
    RemoveTrimmedLeavesEdges(key);
    TrimSpaceParts(key);
    Count(RemoveFirst(key, TrimSpace(key)), ' ')
  }

  // ---------------------------------------------------------------------------
  // The header regexes

  /** The characters of the regexp class `\s`: space, \t, \n, \f, \r (not \v). */
  predicate ReSpace(c: char) { c == ' ' || c == '\t' || c == '\n' || c == '\U{C}' || c == '\r' }

  function SkipSpace(s: string, i: nat): (j: nat)
    requires i <= |s|
    ensures i <= j <= |s| && (j < |s| ==> !ReSpace(s[j]))
    decreases |s| - i
  {
    if i < |s| && ReSpace(s[i]) then SkipSpace(s, i + 1) else i
  }

  function SkipDigits(s: string, i: nat): (j: nat)
    requires i <= |s|
    ensures i <= j <= |s| && (forall k :: i <= k < j ==> IsDigit(s[k])) && (j < |s| ==> !IsDigit(s[j]))
    decreases |s| - i
  {
    if i < |s| && IsDigit(s[i]) then SkipDigits(s, i + 1) else i
  }

  /** The first `c` at or after `i`, or `|s|`. */
  function SkipTo(s: string, i: nat, c: char): (j: nat)
    requires i <= |s|
    ensures i <= j <= |s| && (forall k :: i <= k < j ==> s[k] != c) && (j < |s| ==> s[j] == c)
    decreases |s| - i
  {
    if i < |s| && s[i] != c then SkipTo(s, i + 1, c) else i
  }

  datatype Span = Span(start: nat, end: nat)

  /** `\[\s*([1-9]\d*)` at `p`: where the count's digits lie. */
  function CountAt(s: string, p: nat): (r: Option<Span>)
    requires p <= |s|
    ensures r.Some? ==> p < |s| && s[p] == '[' && p < r.value.start < r.value.end <= |s|
    ensures r.Some? ==> '1' <= s[r.value.start] <= '9' && AllDigits(s[r.value.start..r.value.end])
  {
    if p < |s| && s[p] == '[' then
      var a := SkipSpace(s, p + 1);
      if a < |s| && '1' <= s[a] <= '9' then
        var b := SkipDigits(s, a + 1);
        assert forall k :: 0 <= k < b - a ==> s[a..b][k] == s[a + k];
        Some(Span(a, b))
      else None
    else None
  }

  /** The captures of `^(.*?)\[\s*([1-9]\d*)\s*\]`. */
  datatype ListHead = ListHead(name: string, count: string)

  /** The captures of `^(.*?)\[\s*([1-9]\d*)([|\t]?)\s*\]\{([^}]+)\}`, with an empty separator read as ','. */
  datatype TableHead = TableHead(name: string, count: string, sep: char, fields: string)

  /** A well-formed count: digits, the first of them not 0. */
  predicate PositiveCount(count: string)
  {
    count != [] && '1' <= count[0] <= '9' && AllDigits(count)
  }

  /** The list regex with its lazy name group ending at `p`. */
  function ListAt(s: string, p: nat): (r: Option<ListHead>)
    requires p <= |s|
    ensures r.Some? ==> r.value.name == s[..p] && p < |s| && s[p] == '[' && PositiveCount(r.value.count)
  {
    match CountAt(s, p)
    case None => None
    case Some(d) =>
      var c := SkipSpace(s, d.end);
      if c < |s| && s[c] == ']' then Some(ListHead(s[..p], s[d.start..d.end])) else None
  }

  /** The tabular regex with its lazy name group ending at `p`. */
  function TableAt(s: string, p: nat): (r: Option<TableHead>)
    requires p <= |s|
    ensures r.Some? ==> r.value.name == s[..p] && p < |s| && s[p] == '[' && PositiveCount(r.value.count)
    ensures r.Some? ==> r.value.sep in {',', '|', '\t'} && r.value.fields != [] && '}' !in r.value.fields
  {
    match CountAt(s, p)
    case None => None
    case Some(d) =>
      // `([|\t]?)`: a '|' or a tab right after the count is the separator
      var hasSep := d.end < |s| && (s[d.end] == '|' || s[d.end] == '\t');
      var c := SkipSpace(s, if hasSep then d.end + 1 else d.end);
      if c + 1 < |s| && s[c] == ']' && s[c + 1] == '{' then
        var f := SkipTo(s, c + 2, '}');
        if c + 2 < f < |s| then
          ghost var g := s[c + 2..f];
          assert forall k :: 0 <= k < |g| ==> g[k] == s[k + c + 2];
          Some(TableHead(s[..p], s[d.start..d.end], if hasSep then s[d.end] else ',', s[c + 2..f]))
        else None
      else None
  }

  /**
    `(.*?)` is lazy and its `.` stops at a newline: the match is the first
    `p` from which the rest of the pattern matches.
   */
  function FindList(s: string, p: nat): (r: Option<ListHead>)
    requires p <= |s|
    ensures r.Some? ==> HasPrefix(s, r.value.name + "[") && PositiveCount(r.value.count)
    decreases |s| - p
  {
    var here := ListAt(s, p);
    if here.Some? then
      assert (s[..p] + "[") == s[..p + 1];
      here
    else if p < |s| && s[p] != '\n' then FindList(s, p + 1)
    else None
  }

  function FindTable(s: string, p: nat): (r: Option<TableHead>)
    requires p <= |s|
    ensures r.Some? ==> HasPrefix(s, r.value.name + "[") && PositiveCount(r.value.count)
    ensures r.Some? ==> r.value.sep in {',', '|', '\t'} && r.value.fields != [] && '}' !in r.value.fields
    decreases |s| - p
  {
    var here := TableAt(s, p);
    if here.Some? then
      assert (s[..p] + "[") == s[..p + 1];
      here
    else if p < |s| && s[p] != '\n' then FindTable(s, p + 1)
    else None
  }

  /** `r.MatchString` / `r.FindStringSubmatch` on a trimmed key. */
  function MatchList(s: string): (r: Option<ListHead>)
    ensures r.Some? ==> HasPrefix(s, r.value.name + "[") && PositiveCount(r.value.count)
  {
    FindList(s, 0)
  }

  /** `csvl.MatchString` / `csvl.FindStringSubmatch` on a trimmed key. */
  function MatchTable(s: string): (r: Option<TableHead>)
    ensures r.Some? ==> HasPrefix(s, r.value.name + "[") && PositiveCount(r.value.count)
    ensures r.Some? ==> r.value.sep in {',', '|', '\t'} && r.value.fields != [] && '}' !in r.value.fields
  {
    FindTable(s, 0)
  }

  /** `strconv.Atoi` of a matched count: digits only, so it fails only beyond the int range. */
  function CountValue(count: string): (r: Option<nat>)
    requires PositiveCount(count)
    ensures Atoi(count) == (if r.Some? then Some(r.value as int) else None)
    ensures r.Some? ==> r.value > 0
  {
    var n := DigitsValue(count);
    assert n > 0 by {
      assert count[..1] == [count[0]];
      PositiveDigits(count);
    }
    if n <= MaxInt64 then Some(n) else None
  }

  lemma {:induction false} PositiveDigits(d: string)
    requires d != [] && AllDigits(d) && d[0] != '0'
    ensures DigitsValue(d) > 0
    decreases |d|
  {
    if |d| > 1 {
      PositiveDigits(d[..|d| - 1]);
    }
  }

  // ---------------------------------------------------------------------------
  // The scanner

  /** `scanner.Text()` after the scan at `pos`: the line, or "" once the input is used up. */
  function LineAt(lines: seq<string>, pos: nat): string
  {
    if pos < |lines| then lines[pos] else ""
  }

  /** Where the cursor is after `n` scans from `pos`: scanning past the end stays at the end. */
  function After(lines: seq<string>, pos: nat, n: nat): (r: nat)
    requires pos <= |lines|
    ensures pos <= r <= |lines|
  {
    if pos + n <= |lines| then pos + n else |lines|
  }

  /** The `k+1`-th scan from `pos` reads line `pos + k` and leaves the cursor after `k + 1` scans. */
  lemma ScanNext(lines: seq<string>, pos: nat, k: nat)
    requires pos <= |lines|
    ensures LineAt(lines, After(lines, pos, k)) == LineAt(lines, pos + k)
    ensures After(lines, After(lines, pos, k), 1) == After(lines, pos, k + 1)
  {
  }

  // ---------------------------------------------------------------------------
  // csvLike

  /**
    The first `i` cells of a row: cell j goes under name `order[j]` (a later
    duplicate name wins); a cell beyond the names panics, and the first
    classification error is the row's error.
   */
  function RowSoFar(cells: seq<string>, order: seq<string>, floatOk: FloatSyntax, i: nat): (r: Result<map<string, Scalar>, DecodeError>)
    requires i <= |cells|
    ensures r.Success? ==> i <= |order|
  {
    if i == 0 then Success(map[])
    else match RowSoFar(cells, order, floatOk, i - 1)
      case Failure(e) => Failure(e)
      case Success(row) =>
        if i - 1 >= |order| then Failure(Panic(TooManyCells))
        else match Classify.Classify(cells[i - 1], floatOk)
          case Failure(e) => Failure(BadToken(e))
          case Success(x) => Success(row[order[i - 1] := x])
  }

  /** One `csvLike` row: the trimmed line split on the separator, with no quote awareness. */
  function Row(text: string, order: seq<string>, sep: char, floatOk: FloatSyntax): (r: Result<map<string, Scalar>, DecodeError>)
    // a row with more cells than names never succeeds
    ensures r.Success? ==> Count(TrimSpace(text), sep) < |order|
  {
    var cells := Split(TrimSpace(text), sep);
    RowSoFar(cells, order, floatOk, |cells|)
  }

  /** The first `k` results of `next`, up to the first error, which ends the collection. */
  function Collect<R>(k: nat, next: nat -> Result<R, DecodeError>): (r: Result<seq<R>, DecodeError>)
    ensures r.Success? ==> |r.value| == k
  {
    if k == 0 then Success([])
    else match Collect(k - 1, next)
      case Failure(e) => Failure(e)
      case Success(xs) =>
        match next(k - 1)
        case Failure(e) => Failure(e)
        case Success(x) => Success(xs + [x])
  }

  /** A collection that failed stays failed: the results after the failing one are not asked for. */
  lemma {:induction false} CollectFailureSticks<R>(i: nat, k: nat, next: nat -> Result<R, DecodeError>)
    requires i <= k && Collect(i, next).Failure?
    ensures Collect(k, next) == Collect(i, next)
    decreases k
  {
    if i < k {
      CollectFailureSticks(i, k - 1, next);
    }
  }

  /** One more result asked for: the collection grows by it, or fails with its error. */
  lemma CollectNext<R>(k: nat, next: nat -> Result<R, DecodeError>, xs: seq<R>)
    requires Collect(k, next) == Success(xs)
    ensures Collect(k + 1, next) == if next(k).Success? then Success(xs + [next(k).value]) else Failure(next(k).error)
  {
  }

  /** Row `j` of a block whose first row is the line at `start`. */
  function RowOf(lines: seq<string>, start: nat, order: seq<string>, sep: char, floatOk: FloatSyntax)
    : nat -> Result<map<string, Scalar>, DecodeError>
  {
    (j: nat) => Row(LineAt(lines, start + j), order, sep, floatOk)
  }

  lemma RowOfAt(lines: seq<string>, start: nat, order: seq<string>, sep: char, floatOk: FloatSyntax, j: nat)
    ensures RowOf(lines, start, order, sep, floatOk)(j) == Row(LineAt(lines, start + j), order, sep, floatOk)
  {
  }

  /** The first `k` rows of `csvLike` started at `start`. */
  function CsvSoFar(lines: seq<string>, start: nat, k: nat, order: seq<string>, sep: char, floatOk: FloatSyntax)
    : (r: Result<seq<map<string, Scalar>>, DecodeError>)
    ensures r.Success? ==> |r.value| == k
  {
    Collect(k, RowOf(lines, start, order, sep, floatOk))
  }

  /** A row that failed stays failed: the cells after the failing one are not looked at. */
  lemma {:induction false} RowFailureSticks(cells: seq<string>, order: seq<string>, floatOk: FloatSyntax, i: nat, k: nat)
    requires i <= k <= |cells| && RowSoFar(cells, order, floatOk, i).Failure?
    ensures RowSoFar(cells, order, floatOk, k) == RowSoFar(cells, order, floatOk, i)
    decreases k - i
  {
    if i < k {
      RowFailureSticks(cells, order, floatOk, i, k - 1);
    }
  }

  // ---------------------------------------------------------------------------
  // multipleLineList

  /** How the counted read of `- v` lines ends. */
  datatype ListOutcome =
    | Listed(xs: seq<Scalar>)
    | InvalidList                 // a classification error: the invalid Value and a nil error
    | ListPanic(why: PanicReason)
    | ListNeverEnds

  datatype ListRead = ListRead(outcome: ListOutcome, next: nat)

  function Prepend(xs: seq<Scalar>, r: ListRead): ListRead
  {
    if r.outcome.Listed? then ListRead(Listed(xs + r.outcome.xs), r.next) else r
  }

  /** What one line read by `multipleLineList` gives. */
  datatype ListLine =
    | Skipped          // its trimmed text does not start with '-': it does not count
    | Element(x: Scalar)
    | Unrecognized     // recognizeType failed: the read stops
    | NoSpace          // no space after the dash: the read panics

  /**
    One line of a list block: lines whose trimmed text does not start with
    '-' are skipped; an element is recognizeType of the trimmed text after
    the first space.
   */
  function ListLineOf(line: string, floatOk: FloatSyntax): (r: ListLine)
    ensures r.Skipped? <==> !HasPrefix(TrimSpace(line), "-")
    ensures r.NoSpace? ==> ' ' !in TrimSpace(line)
  {
    var t := TrimSpace(line);
    SplitN2Parts(t, ' ');
    if !HasPrefix(t, "-") then Skipped
    else
      var parts := SplitN2(t, ' ');
      if |parts| == 1 then NoSpace
      else match Classify.Classify(TrimSpace(parts[1]), floatOk)
        case Failure(_) => Unrecognized
        case Success(x) => Element(x)
  }

  /** What every line of the input gives when read as a list line. */
  function ListLines(lines: seq<string>, floatOk: FloatSyntax): (r: seq<ListLine>)
    ensures |r| == |lines|
  {
    seq(|lines|, j requires 0 <= j < |lines| => ListLineOf(lines[j], floatOk))
  }

  /** Entry `j` of what the lines give, as a term of its own for the facts about single lines to hang on. */
  function ParsedAt(parsed: seq<ListLine>, j: nat): ListLine
    requires j < |parsed|
  {
    parsed[j]
  }

  /** What each line gives, one line at a time. */
  predicate ParsedFrom(parsed: seq<ListLine>, lines: seq<string>, floatOk: FloatSyntax)
  {
    |parsed| == |lines| &&
    forall j {:trigger ParsedAt(parsed, j)} :: 0 <= j < |lines| ==> ParsedAt(parsed, j) == ListLineOf(lines[j], floatOk)
  }

  lemma ListLinesParsed(lines: seq<string>, floatOk: FloatSyntax)
    ensures ParsedFrom(ListLines(lines, floatOk), lines, floatOk)
  {
  }

  /**
    The loop of `multipleLineList` from line `pos` with `need` elements to
    go, given what each line gives (`parsed`). Out of lines, every further scan yields
    "", which is skipped, so the loop never ends.
   */
  function ListScan(parsed: seq<ListLine>, pos: nat, need: nat): (r: ListRead)
    requires pos <= |parsed|
    ensures pos <= r.next <= |parsed|
    ensures r.outcome.Listed? ==> |r.outcome.xs| == need
    ensures r.outcome.ListNeverEnds? ==> r.next == |parsed|
    decreases |parsed| - pos
  {
    if need == 0 then ListRead(Listed([]), pos)
    else if pos == |parsed| then ListRead(ListNeverEnds, pos)
    else match parsed[pos]
      case Skipped => ListScan(parsed, pos + 1, need)
      case Unrecognized => ListRead(InvalidList, pos + 1)
      case NoSpace => ListRead(ListPanic(NoSpaceAfterDash), pos + 1)
      case Element(x) => Prepend([x], ListScan(parsed, pos + 1, need - 1))
  }

  /** A line that does not start with '-' is passed over without counting. */
  lemma ListScanSkip(parsed: seq<ListLine>, pos: nat, need: nat)
    requires pos < |parsed| && need > 0 && parsed[pos] == Skipped
    ensures ListScan(parsed, pos, need) == ListScan(parsed, pos + 1, need)
  {
  }

  /** An element line counts, and the read goes on for the rest. */
  lemma ListScanElement(parsed: seq<ListLine>, pos: nat, need: nat, x: Scalar)
    requires pos < |parsed| && need > 0 && parsed[pos] == Element(x)
    ensures ListScan(parsed, pos, need) == Prepend([x], ListScan(parsed, pos + 1, need - 1))
  {
  }

  /** What `multipleLineList` returns; `None` is the invalid Value. */
  function ListReturn(o: ListOutcome): (r: Result<Option<seq<Scalar>>, DecodeError>)
    ensures r.Success? && r.value.Some? <==> o.Listed? && SNull !in o.xs
    ensures r == Success(None) <==> o.InvalidList?
  {
    match o
    case Listed(xs) =>
      // reflect.Append refuses the invalid Value of a null element
      if SNull in xs then Failure(Panic(AppendZeroValue)) else Success(Some(xs))
    case InvalidList => Success(None)
    case ListPanic(why) => Failure(Panic(why))
    case ListNeverEnds => Failure(NeverReturns)
  }

  // ---------------------------------------------------------------------------
  // Assignments

  /**
    `signToStruct` and the list branch: the value's kind must equal the
    field's (after one pointer step) unless the field is an interface;
    setting the invalid Value, or setting through a nil pointer, panics.
   */
  function Assign(fields: seq<Field>, pos: nat, value: Decoded, kind: Kind): (r: Result<seq<Field>, DecodeError>)
    requires pos < |fields|
    ensures var fk := FieldKind(fields[pos].slot);
      r.Success? <==> (fk == kind || fk == InterfaceKind) && kind != InvalidKind
    ensures var fk := FieldKind(fields[pos].slot);
      fk != kind && fk != InterfaceKind ==> r == Failure(Mismatch(kind, fk))
    ensures r.Success? ==> |r.value| == |fields| && r.value[pos] == fields[pos].(val := value)
    ensures r.Success? ==> forall i :: 0 <= i < |fields| && i != pos ==> r.value[i] == fields[i]
  {
    var fk := FieldKind(fields[pos].slot);
    if fk != kind && fk != InterfaceKind then Failure(Mismatch(kind, fk))
    else if kind == InvalidKind then Failure(Panic(SetZeroValue))
    else Success(fields[pos := fields[pos].(val := value)])
  }

  /** A row with its null cells left out. */
  function DropNulls(row: map<string, Scalar>): (r: map<string, Scalar>)
    ensures forall k :: k in r <==> k in row && row[k] != SNull
    ensures forall k :: k in r ==> r[k] == row[k]
  {
    map k | k in row && row[k] != SNull :: row[k]
  }

  /**
    One struct element of a tabular block: field `p` is set from the column
    named by its tag when `p` is the last field with that non-empty tag and
    the cell is not null; every other field keeps its zero value.
   */
  /** Every tag in `emap` is mapped to a position of `tags` that holds it. */
  predicate PointsInto(emap: map<string, nat>, tags: seq<string>)
  {
    forall t :: t in emap ==> emap[t] < |tags| && tags[emap[t]] == t
  }

  lemma ElemIndexPointsInto(tags: seq<string>)
    ensures PointsInto(ElemIndex(tags), tags)
  {
  }

  function BuildElem(row: map<string, Scalar>, tags: seq<string>, emap: map<string, nat>): (r: seq<Option<Scalar>>)
    ensures |r| == |tags|
  {
    seq(|tags|, p requires 0 <= p < |tags| =>
      var t := tags[p];
      if t in emap && emap[t] == p && t in row && row[t] != SNull then Some(row[t]) else None)
  }

  function StructElemRows(rows: seq<map<string, Scalar>>, tags: seq<string>): (r: seq<seq<Option<Scalar>>>)
    ensures |r| == |rows|
  {
    var emap := ElemIndex(tags);
    seq(|rows|, k requires 0 <= k < |rows| => BuildElem(rows[k], tags, emap))
  }

  function MapElemRows(rows: seq<map<string, Scalar>>): (r: seq<map<string, Scalar>>)
    ensures |r| == |rows| && forall k :: 0 <= k < |rows| ==> r[k] == DropNulls(rows[k])
  {
    seq(|rows|, k requires 0 <= k < |rows| => DropNulls(rows[k]))
  }

  // ---------------------------------------------------------------------------
  // The line loop

  /** The loop's state: the scanner's position, `lastIdentationN`, `saveName`, `builder4Nested`, the destination. */
  datatype Machine = Machine(cursor: nat, lastIndent: nat, saveName: string, nested: string, target: Target)

  /** The decoder never changes the shape of its destination, only the values in it. */
  predicate SameShape(t: Target, u: Target)
  {
    && t.StructTarget? == u.StructTarget?
    && t.MapTarget? == u.MapTarget?
    && (t.StructTarget? ==>
         |t.fields| == |u.fields| &&
         forall i :: 0 <= i < |t.fields| ==> t.fields[i].tag == u.fields[i].tag && t.fields[i].slot == u.fields[i].slot)
  }

  /** A tabular block, after its header line: read the rows, then store them under the header's name. */
  function TableStep(lines: seq<string>, index: map<string, nat>, floatOk: FloatSyntax, m: Machine, h: TableHead)
    : (r: Result<Machine, DecodeError>)
    requires m.cursor <= |lines| && Fits(index, m.target) && PositiveCount(h.count)
    ensures r.Success? ==> m.cursor <= r.value.cursor <= |lines| && SameShape(m.target, r.value.target)
    ensures r.Success? ==> r.value == m.(cursor := r.value.cursor, target := r.value.target)
  {
    match CountValue(h.count)
    case None => Failure(TableCount(h.count))
    case Some(n) =>
      var order := Split(h.fields, h.sep);
      match CsvSoFar(lines, m.cursor, n, order, h.sep, floatOk)
      case Failure(e) => Failure(e)
      case Success(rows) =>
        var m2 := m.(cursor := After(lines, m.cursor, n));
        match m.target
        case StructTarget(fs) =>
          if h.name !in index then Success(m2)      // unknown name: its rows are consumed, nothing is set
          else
            var pos := index[h.name];
            var f := fs[pos];
            if SlotKind(f.slot) != SliceKind then Failure(CsvOnNonSlice)
            else
              (match f.slot.elem
               case StructElems(tags) =>
                 Success(m2.(target := StructTarget(fs[pos := f.(val := StructRows(StructElemRows(rows, tags)))])))
               case MapElems =>
                 Success(m2.(target := StructTarget(fs[pos := f.(val := MapRows(MapElemRows(rows)))])))
               case OtherElems => Success(m2))
        case MapTarget(mp) => Success(m2.(target := MapTarget(mp[h.name := MapRows(MapElemRows(rows))])))
        case OtherTarget => Success(m2)
  }

  /** The name a list or scalar line is stored under: the trimmed text before the first '['. */
  function BaseName(key: string): (r: string)
    ensures Trimmed(r) && '[' !in r
  {
    var part := Split(key, '[')[0];
    SplitPartsFree(key, '[');
    TrimSpaceParts(part);
    var r := TrimSpace(part);
    assert forall i :: 0 <= i < |r| ==> r[i] == part[|LeadingSpace(part)| + i];
    r
  }

  /** A list block, after its header line: read the `- v` lines, then store the list under `name`. */
  function ListStep(lines: seq<string>, index: map<string, nat>, floatOk: FloatSyntax, m: Machine, name: string, h: ListHead)
    : (r: Result<Machine, DecodeError>)
    requires m.cursor <= |lines| && PositiveCount(h.count)
    ensures r.Success? ==> m.cursor <= r.value.cursor <= |lines| && SameShape(m.target, r.value.target)
    ensures r.Success? ==> r.value == m.(cursor := r.value.cursor, target := r.value.target)
  {
    match CountValue(h.count)
    case None => Failure(ListCount(h.count))
    case Some(n) =>
      var read := ListScan(ListLines(lines, floatOk), m.cursor, n);
      match ListReturn(read.outcome)
      case Failure(e) => Failure(e)
      case Success(list) =>
        var m2 := m.(cursor := read.next);
        match m.target
        case StructTarget(fs) =>
          var pos := FieldPos(index, name);
          if pos >= |fs| then Failure(Panic(NoFields))
          else
            var value := if list.Some? then AnyList(list.value) else Zero;
            var kind := if list.Some? then SliceKind else InvalidKind;
            (match Assign(fs, pos, value, kind)
             case Failure(e) => Failure(e)
             case Success(fs') => Success(m2.(target := StructTarget(fs'))))
        case MapTarget(mp) =>
          // SetMapIndex with the invalid Value deletes the key
          if list.Some? then Success(m2.(target := MapTarget(mp[name := AnyList(list.value)])))
          else Success(m2.(target := MapTarget(mp - {name})))
        case OtherTarget => Success(m2)
  }

  /**
    What one turn of the loop reads off a line split at its first ':' into
    `key` and `value`: the trimmed key and value, the indentation of the
    key, the name a list or scalar is stored under, the tabular and list
    header matches on the trimmed key, and the token the trimmed value
    reads as. The source computes each of these where it first needs it;
    all are pure, so computing them up front changes nothing.
   */
  datatype LineView = LineView(
    tkey: string, tval: string, ind: nat, base: string,
    table: Option<TableHead>, list: Option<ListHead>, token: Result<Scalar, ClassError>)

  /** The header matches of a view carry well-formed counts. */
  predicate ViewOk(v: LineView)
  {
    && (v.table.Some? ==> PositiveCount(v.table.value.count))
    && (v.list.Some? ==> PositiveCount(v.list.value.count))
  }

  function ViewOf(key: string, value: string, floatOk: FloatSyntax): (v: LineView)
    ensures ViewOk(v)
  {
    var tkey, tval := TrimSpace(key), TrimSpace(value);
    LineView(tkey, tval, Indentation(key), BaseName(key), MatchTable(tkey), MatchList(tkey), Classify.Classify(tval, floatOk))
  }

  /**
    A `key : value` line at or below the current indentation. A null value
    is skipped. A line shallower than the deepest seen so far triggers the
    source's re-decode of the nested buffer, which has no effect (see
    `UnmarshalProps.NestedRedecodeIsNoOp`), and is not assigned itself.
   */
  function ScalarStep(index: map<string, nat>, m: Machine, v: LineView)
    : (r: Result<Machine, DecodeError>)
    ensures r.Success? ==> r.value == m.(target := r.value.target) && SameShape(m.target, r.value.target)
  {
    match v.token
    case Failure(e) => Failure(BadToken(e))
    case Success(x) =>
      if x.SNull? then Success(m)
      else match m.target
        case StructTarget(fs) =>
          if v.ind < m.lastIndent then Success(m)
          else
            var pos := FieldPos(index, v.base);
            if pos >= |fs| then Failure(Panic(NoFields))
            else
              (match Assign(fs, pos, One(x), ScalarKind(x))
               case Failure(e) => Failure(e)
               case Success(fs') => Success(m.(target := StructTarget(fs'))))
        case MapTarget(mp) =>
          if v.ind < m.lastIndent then Success(m)
          else Success(m.(target := MapTarget(mp[v.tkey := One(x)])))
        case OtherTarget => Success(m)
  }

  /**
    One turn of the line loop on the line at the cursor: split at the first
    ':', note the key of an empty value as `saveName`, buffer a deeper
    line, then try the tabular header, the list header and the scalar
    assignment in this order.
   */
  function Step(lines: seq<string>, index: map<string, nat>, floatOk: FloatSyntax, m: Machine): (r: Result<Machine, DecodeError>)
    requires m.cursor < |lines| && Fits(index, m.target)
    ensures r.Success? ==> m.cursor < r.value.cursor <= |lines|
    ensures r.Success? ==> m.lastIndent <= r.value.lastIndent && SameShape(m.target, r.value.target)
  {
    var parts := SplitN2(lines[m.cursor], ':');
    if |parts| == 1 then Failure(Panic(NoColon))
    else Turn(lines, index, floatOk, m, ViewOf(parts[0], parts[1], floatOk))
  }

  /** A line without a ':' stops the loop. */
  lemma StepNoColon(lines: seq<string>, index: map<string, nat>, floatOk: FloatSyntax, m: Machine)
    requires m.cursor < |lines| && Fits(index, m.target) && ':' !in lines[m.cursor]
    ensures Step(lines, index, floatOk, m) == Failure(Panic(NoColon))
  {
    SplitN2Parts(lines[m.cursor], ':');
  }

  /** The line at the cursor once split into its key and value parts and read as `v`. */
  function Turn(lines: seq<string>, index: map<string, nat>, floatOk: FloatSyntax, m: Machine, v: LineView)
    : (r: Result<Machine, DecodeError>)
    requires m.cursor < |lines| && Fits(index, m.target) && ViewOk(v)
    ensures r.Success? ==> m.cursor < r.value.cursor <= |lines|
    ensures r.Success? ==> m.lastIndent <= r.value.lastIndent && SameShape(m.target, r.value.target)
  {
    var m1 := m.(cursor := m.cursor + 1, saveName := if v.tval == "" then v.tkey else m.saveName);
    if v.ind > m.lastIndent then Success(m1.(lastIndent := v.ind, nested := m.nested + lines[m.cursor]))
    else Branch(lines, index, floatOk, m1, v)
  }

  /** The line at the cursor after its split: what `Step` does with its key and value parts. */
  lemma StepSplit(lines: seq<string>, index: map<string, nat>, floatOk: FloatSyntax, m: Machine, key: string, value: string)
    requires m.cursor < |lines| && Fits(index, m.target) && SplitN2(lines[m.cursor], ':') == [key, value]
    ensures Step(lines, index, floatOk, m) == Turn(lines, index, floatOk, m, ViewOf(key, value, floatOk))
  {
  }

  /** A line at or below the current indentation: the tabular header, the list header, or a scalar, in this order. */
  function Branch(lines: seq<string>, index: map<string, nat>, floatOk: FloatSyntax, m: Machine, v: LineView)
    : (r: Result<Machine, DecodeError>)
    requires m.cursor <= |lines| && Fits(index, m.target) && ViewOk(v)
    ensures r.Success? ==> m.cursor <= r.value.cursor <= |lines| && SameShape(m.target, r.value.target)
    ensures r.Success? ==> r.value == m.(cursor := r.value.cursor, target := r.value.target)
  {
    if v.table.Some? && v.tval == "" then TableStep(lines, index, floatOk, m, v.table.value)
    else if v.list.Some? && v.tval == "" then ListStep(lines, index, floatOk, m, v.base, v.list.value)
    else ScalarStep(index, m, v)
  }

  /** The line loop from state `m`: the final destination, and the error that stopped the loop if any. */
  function RunFrom(lines: seq<string>, index: map<string, nat>, floatOk: FloatSyntax, m: Machine): (r: (Target, Option<DecodeError>))
    requires m.cursor <= |lines| && Fits(index, m.target)
    ensures SameShape(m.target, r.0)
    decreases |lines| - m.cursor
  {
    if m.cursor == |lines| then (m.target, None)
    else match Step(lines, index, floatOk, m)
      case Failure(e) => (m.target, Some(e))
      case Success(m') =>
        FitsKept(index, m.target, m'.target);
        var r := RunFrom(lines, index, floatOk, m');
        SameShapeTrans(m.target, m'.target, r.0);
        r
  }

  lemma FitsKept(index: map<string, nat>, t: Target, u: Target)
    requires Fits(index, t) && SameShape(t, u)
    ensures Fits(index, u)
  {
  }

  lemma SameShapeTrans(t: Target, u: Target, w: Target)
    requires SameShape(t, u) && SameShape(u, w)
    ensures SameShape(t, w)
  {
  }

  lemma OnlyOtherIsLikeOther(t: Target, u: Target)
    requires SameShape(t, u)
    ensures t.OtherTarget? ==> u == OtherTarget
  {
  }

  /** The index `Unmarshal` builds: the tag index of a struct, nothing otherwise. */
  function IndexOf(t: Target): (index: map<string, nat>)
    ensures Fits(index, t)
  {
    if t.StructTarget? then TagIndex(Tags(t.fields)) else map[]
  }

  function Start(t: Target): Machine { Machine(0, 0, "", "", t) }

  /**
    `Unmarshal(data, v)`: the destination after the call, which keeps
    whatever was assigned before an error, and the error.
   */
  function Decode(data: string, dest: Dest, floatOk: FloatSyntax): (r: (Dest, Option<DecodeError>))
    ensures dest.UntypedNil? ==> r == (dest, Some(Panic(NilArgument)))
    ensures dest.NotPointer? || dest.NilPointer? ==> r == (dest, Some(NotNonNilPointer))
    ensures dest.PointerTo? ==> r.0.PointerTo? && SameShape(dest.target, r.0.target)
    // a destination that is neither a struct nor a map receives no assignments
    ensures dest == PointerTo(OtherTarget) ==> r.0 == dest
  {
    match dest
    case PointerTo(t) =>
      var run := RunFrom(Lines(data), IndexOf(t), floatOk, Start(t));
      OnlyOtherIsLikeOther(t, run.0);
      (PointerTo(run.0), run.1)
    case UntypedNil => (dest, Some(Panic(NilArgument)))
    case _ => (dest, Some(NotNonNilPointer))
  }
}
