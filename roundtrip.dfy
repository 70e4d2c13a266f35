/**
  What the decoder of goon/unmarshal.go makes of the text the encoder of
  goon/marshal.go writes: every scalar text is read back by `recognizeType`
  as the value it was written from, and a record of scalars decodes into a
  map as its entries, except the first one, which measures one space of
  indentation and is buffered instead of assigned.
 */
module RoundTrip {
  import opened Wrappers
  import opened GoText
  import opened Classify
  import M = MarshalSpec
  import MP = MarshalProps
  import U = UnmarshalSpec
  import UP = UnmarshalProps

  /** No character that would end a line or be trimmed as space, except the space and the tab. */
  predicate OneLine(s: string)
  {
    forall i :: 0 <= i < |s| ==> s[i] != '\n' && s[i] != '\U{B}' && s[i] != '\U{C}' && s[i] != '\r'
  }

  /**
    The scalars whose text the decoder can read back: a string on one line,
    a 64-bit int, a bool, and a float whose text has a dot and is accepted by
    the float parser. (A float written without a dot, `3` or `1e+06`, goes to
    Atoi instead.)
   */
  predicate Readable(x: M.Val, floatOk: FloatSyntax)
  {
    M.IsScalar(x) &&
    match x
    case Str(s) => OneLine(s)
    case Int(i) => InInt64(i)
    case Bool(_) => true
    case Float(t) => HasDigit(t) && '"' !in t && '.' in t && floatOk(t) && Trimmed(t) && OneLine(t)
    case _ => false
  }

  /** The value the decoder should give back for a scalar the encoder wrote. */
  function Expected(x: M.Val): (r: Scalar)
    requires M.IsScalar(x)
    ensures !r.SNull?
  {
    match x
    case Str(s) => SStr(s)
    case Int(i) => SInt(i)
    case Bool(b) => SBool(b)
    case Float(t) => SFloat(t)
  }

  /** A string that needs no quotes is trimmed, free of digits and commas, and read back as itself. */
  lemma PlainStringRoundTrip(s: string, floatOk: FloatSyntax)
    requires !M.NeedsQuotes(s)
    ensures s != ""
    ensures Classify.Classify(s, floatOk) == Success(SStr(s))
    ensures OneLine(s) ==> Trimmed(s)
  {
    assert s[0] != ' ' by { assert !HasPrefix(s, " "); }
    assert s[|s| - 1] != ' ' by { assert !HasSuffix(s, " "); }
    assert s[0] != '\t' && s[|s| - 1] != '\t';
    assert !HasDigit(s) by {
      forall i | 0 <= i < |s| ensures s[i] !in DecimalDigits { assert s[i] !in M.QuoteTriggers; }
    }
    assert ',' !in s && '"' !in s by {
      forall i | 0 <= i < |s| ensures s[i] != ',' && s[i] != '"' { assert s[i] !in M.QuoteTriggers; }
    }
    assert !HasPrefix(s, "\"") by { assert s[0] != '"'; }
    assert !HasSuffix(s, "\"") by { assert s[|s| - 1] != '"'; }
    StringBranch(s, floatOk);
  }

  /**
    Every string, once quoted, is read back as itself: a quoted string keeps
    its quotes out of the number and comma branches, a plain one has no digit,
    comma or quote. On one line, the written text is also trimmed.
   */
  lemma QuoteRoundTrip(s: string, floatOk: FloatSyntax)
    ensures M.Quote(s) != ""
    ensures Classify.Classify(M.Quote(s), floatOk) == Success(SStr(s))
    ensures OneLine(s) ==> Trimmed(M.Quote(s)) && '\n' !in M.Quote(s)
  {
    if M.NeedsQuotes(s) {
      var q := M.Quoted(s);
      assert q[0] == '"' && q[|q| - 1] == '"';
      if OneLine(s) {
        assert '\n' !in q by {
          forall i | 0 <= i < |q| ensures q[i] != '\n' {
            if 0 < i < |q| - 1 { assert q[i] == s[i - 1]; }
          }
        }
      }
      QuotedIsString(s, floatOk);
    } else {
      PlainStringRoundTrip(s, floatOk);
    }
  }

  /** Every readable scalar's text is trimmed, one line, and read back as the scalar it was written from. */
  lemma ScalarRoundTrip(x: M.Val, floatOk: FloatSyntax)
    requires Readable(x, floatOk)
    ensures M.IsScalar(x)
    ensures var t := M.ScalarText(x); Trimmed(t) && t != "" && '\n' !in t
    ensures Classify.Classify(M.ScalarText(x), floatOk) == Success(Expected(x))
  {
    match x
    case Str(s) => QuoteRoundTrip(s, floatOk);
    case Int(i) =>
      DecimalIsInt(i, floatOk);
      DecimalChars(i);
      var d := Decimal(i);
      assert d[0] == '-' || IsDigit(d[0]);
      assert IsDigit(d[|d| - 1]);
      assert '\n' !in d;
    case Bool(b) => BoolWords(b, floatOk);
    case Float(t) =>
      assert t != "" by { assert '.' in t; }
      assert '\n' !in t by { assert OneLine(t); }
  }

  // ---------------------------------------------------------------------------
  // A record of scalars into a map

  /** An entry the record writer puts on one `name : value` line the decoder can split and read back. */
  predicate ReadableEntry(e: M.Entry, floatOk: FloatSyntax)
  {
    Trimmed(e.name) && ':' !in e.name && '\n' !in e.name && Readable(e.val, floatOk)
  }

  /** A map after the entries are stored one after the other, a later entry overwriting an earlier one. */
  function StoreAll(mp: map<string, U.Decoded>, es: seq<M.Entry>): (r: map<string, U.Decoded>)
    requires forall k :: 0 <= k < |es| ==> M.IsScalar(es[k].val)
    ensures forall k :: 0 <= k < |es| ==> es[k].name in r
    ensures forall n :: n in mp ==> n in r
    decreases |es|
  {
    if es == [] then mp else StoreAll(mp[es[0].name := U.One(Expected(es[0].val))], es[1..])
  }

  /** The scalar part of one such line, once trimmed, is a value stored under the trimmed name. */
  lemma ScalarIntoMap(index: map<string, nat>, m: U.Machine, v: U.LineView, x: Scalar)
    requires m.target.MapTarget? && m.lastIndent == 1 && v.ind == 1
    requires v.token == Success(x) && !x.SNull?
    ensures U.ScalarStep(index, m, v) ==
      Success(m.(target := U.MapTarget(m.target.entries[v.tkey := U.One(x)])))
  {
  }

  /** The record writer's line splits at the colon after the name into `name ` and ` value`, both read as written. */
  lemma ScalarLineSplit(e: M.Entry, floatOk: FloatSyntax)
    requires ReadableEntry(e, floatOk)
    ensures var text := M.ScalarText(e.val);
      && SplitN2(MP.ScalarLine(e), ':') == [e.name + " ", " " + text]
      && TrimSpace(e.name + " ") == e.name && U.Indentation(e.name + " ") == 1
      && TrimSpace(" " + text) == text && text != ""
      && Classify.Classify(text, floatOk) == Success(Expected(e.val))
  {
    ScalarRoundTrip(e.val, floatOk);
    var text := M.ScalarText(e.val);
    SplitsAfterName(e.name, text);
    UP.EncodedKeyMeasuresOne(e.name);
    TrimSpaceAfterSpace(text);
  }

  lemma SplitsAfterName(name: string, text: string)
    requires ':' !in name
    ensures SplitN2(name + " : " + text, ':') == [name + " ", " " + text]
  {
    assert name + " : " + text == (name + " ") + [':'] + (" " + text);
    SplitN2At(name + " ", ':', " " + text);
  }

  /** One `name : value` line after the first: its value is stored under its name. */
  lemma ScalarLineIntoMap(lines: seq<string>, index: map<string, nat>, floatOk: FloatSyntax, m: U.Machine, e: M.Entry)
    requires m.cursor < |lines| && m.target.MapTarget? && m.lastIndent == 1
    requires ReadableEntry(e, floatOk) && lines[m.cursor] == MP.ScalarLine(e)
    ensures U.Step(lines, index, floatOk, m) ==
      Success(m.(cursor := m.cursor + 1, target := U.MapTarget(m.target.entries[e.name := U.One(Expected(e.val))])))
  {
    var key, value := e.name + " ", " " + M.ScalarText(e.val);
    var v := U.ViewOf(key, value, floatOk);
    var m1 := m.(cursor := m.cursor + 1);
    ScalarLineSplit(e, floatOk);
    ScalarIntoMap(index, m1, v, Expected(e.val));
    UP.BranchScalar(lines, index, floatOk, m1, v);
    UP.TurnBranches(lines, index, floatOk, m, v);
    U.StepSplit(lines, index, floatOk, m, key, value);
  }

  /** The rest of the record's lines, from the cursor on, store the rest of its entries. */
  lemma {:induction false} LinesIntoMap(lines: seq<string>, es: seq<M.Entry>, floatOk: FloatSyntax, m: U.Machine)
    requires forall k :: 0 <= k < |es| ==> M.IsScalar(es[k].val) && ReadableEntry(es[k], floatOk)
    requires lines == MP.ScalarLines(es)
    requires m.cursor <= |lines| && m.target.MapTarget? && m.lastIndent == 1
    ensures U.RunFrom(lines, map[], floatOk, m) == (U.MapTarget(StoreAll(m.target.entries, es[m.cursor..])), None)
    decreases |lines| - m.cursor
  {
    if m.cursor == |lines| {
      assert es[m.cursor..] == [];
    } else {
      var e := es[m.cursor];
      ScalarLineIntoMap(lines, map[], floatOk, m, e);
      var m' := m.(cursor := m.cursor + 1, target := U.MapTarget(m.target.entries[e.name := U.One(Expected(e.val))]));
      LinesIntoMap(lines, es, floatOk, m');
      assert es[m.cursor..][1..] == es[m.cursor + 1..];
    }
  }

  /** The scanner gives back the record's lines. */
  lemma RecordLines(es: seq<M.Entry>, floatOk: FloatSyntax)
    requires forall k :: 0 <= k < |es| ==> M.IsScalar(es[k].val) && ReadableEntry(es[k], floatOk)
    ensures Lines(Terminated(MP.ScalarLines(es))) == MP.ScalarLines(es)
  {
    var lines := MP.ScalarLines(es);
    forall k | 0 <= k < |lines| ensures '\n' !in lines[k] {
      ScalarRoundTrip(es[k].val, floatOk);
      var t := M.ScalarText(es[k].val);
      assert lines[k] == es[k].name + " : " + t;
      assert '\n' !in es[k].name + " : ";
    }
    LinesOfTerminated(lines);
  }

  /** The line loop over a record's lines, from the start, into a map. */
  lemma RecordRunIntoMap(es: seq<M.Entry>, mp: map<string, U.Decoded>, floatOk: FloatSyntax)
    requires forall k :: 0 <= k < |es| ==> M.IsScalar(es[k].val) && ReadableEntry(es[k], floatOk)
    ensures U.RunFrom(MP.ScalarLines(es), map[], floatOk, U.Start(U.MapTarget(mp))) ==
      (U.MapTarget(if es == [] then mp else StoreAll(mp, es[1..])), None)
  {
    var lines := MP.ScalarLines(es);
    var t := U.MapTarget(mp);
    if es != [] {
      assert U.IndexOf(t) == map[];
      ScalarRoundTrip(es[0].val, floatOk);
      UP.FirstLineSwallowed(lines, t, floatOk, es[0].name, M.ScalarText(es[0].val));
      var m := U.Step(lines, map[], floatOk, U.Start(t)).value;
      LinesIntoMap(lines, es, floatOk, m);
      assert es[1..] == es[m.cursor..];
    }
  }

  /**
    A record of scalars, written by the encoder and decoded into a map:
    every entry but the first is stored under its name as the value it was
    written from, and no error is reported. The first line is lost.
   */
  lemma FlatRecordIntoMap(es: seq<M.Entry>, mp: map<string, U.Decoded>, floatOk: FloatSyntax)
    requires forall k :: 0 <= k < |es| ==> ReadableEntry(es[k], floatOk)
    ensures forall k :: 0 <= k < |es| ==> M.IsScalar(es[k].val)
    ensures M.RecordText(M.Rec(es)).Success?
    ensures U.Decode(M.RecordText(M.Rec(es)).value, U.PointerTo(U.MapTarget(mp)), floatOk) ==
      (U.PointerTo(U.MapTarget(if es == [] then mp else StoreAll(mp, es[1..]))), None)
  {
    assert forall k :: 0 <= k < |es| ==> M.IsScalar(es[k].val) && ReadableEntry(es[k], floatOk);
    MP.ScalarRecordLayout(M.Rec(es));
    RecordLines(es, floatOk);
    RecordRunIntoMap(es, mp, floatOk);
    assert U.IndexOf(U.MapTarget(mp)) == map[];
  }

  // ---------------------------------------------------------------------------
  // A record of scalars into a struct

  /** The struct field that entry `e` is stored in takes its value: the field's kind is the value's, or any. */
  predicate Accepts(fs: seq<U.Field>, index: map<string, nat>, e: M.Entry)
    requires M.IsScalar(e.val)
  {
    && e.name in index && index[e.name] < |fs|
    && var k := U.FieldKind(fs[index[e.name]].slot);
      k == U.ScalarKind(Expected(e.val)) || k == U.InterfaceKind
  }

  /** The fields after the value of `e` is stored in the field its name indexes. */
  function SetOne(fs: seq<U.Field>, index: map<string, nat>, e: M.Entry): (r: seq<U.Field>)
    requires M.IsScalar(e.val)
    ensures |r| == |fs| && forall i :: 0 <= i < |fs| ==> r[i].tag == fs[i].tag && r[i].slot == fs[i].slot
  {
    if e.name in index && index[e.name] < |fs| then
      var p := index[e.name];
      fs[p := fs[p].(val := U.One(Expected(e.val)))]
    else fs
  }

  /** The fields after the entries are stored one after the other. */
  function SetAll(fs: seq<U.Field>, index: map<string, nat>, es: seq<M.Entry>): (r: seq<U.Field>)
    requires forall k :: 0 <= k < |es| ==> M.IsScalar(es[k].val)
    ensures |r| == |fs| && forall i :: 0 <= i < |fs| ==> r[i].tag == fs[i].tag && r[i].slot == fs[i].slot
    decreases |es|
  {
    if es == [] then fs else SetAll(SetOne(fs, index, es[0]), index, es[1..])
  }

  /** The scalar part of one such line is assigned to the field that its name indexes. */
  lemma ScalarIntoStruct(index: map<string, nat>, m: U.Machine, e: M.Entry, v: U.LineView)
    requires M.IsScalar(e.val) && m.target.StructTarget? && m.lastIndent == 1 && v.ind == 1
    requires Accepts(m.target.fields, index, e) && v.base == e.name
    requires v.token == Success(Expected(e.val))
    ensures U.ScalarStep(index, m, v) ==
      Success(m.(target := U.StructTarget(SetOne(m.target.fields, index, e))))
  {
  }

  /** The key part `name ` of a struct entry's line names the field by its tag. */
  lemma BaseNameOfKey(name: string)
    requires Trimmed(name) && '[' !in name
    ensures U.BaseName(name + " ") == name
  {
    var key := name + " ";
    assert '[' !in key;
    FindFirst(key, '[');
    assert Find(key, '[') == |key|;
    TrimSpaceBeforeSpace(name);
  }

  /** One `name : value` line after the first: its value is assigned to the field tagged `name`. */
  lemma ScalarLineIntoStruct(lines: seq<string>, index: map<string, nat>, floatOk: FloatSyntax, m: U.Machine, e: M.Entry)
    requires m.cursor < |lines| && m.target.StructTarget? && m.lastIndent == 1 && U.Fits(index, m.target)
    requires ReadableEntry(e, floatOk) && '[' !in e.name && lines[m.cursor] == MP.ScalarLine(e)
    requires Accepts(m.target.fields, index, e)
    ensures U.Step(lines, index, floatOk, m) ==
      Success(m.(cursor := m.cursor + 1, target := U.StructTarget(SetOne(m.target.fields, index, e))))
  {
    var key, value := e.name + " ", " " + M.ScalarText(e.val);
    var v := U.ViewOf(key, value, floatOk);
    var m1 := m.(cursor := m.cursor + 1);
    ScalarLineSplit(e, floatOk);
    BaseNameOfKey(e.name);
    ScalarIntoStruct(index, m1, e, v);
    UP.BranchScalar(lines, index, floatOk, m1, v);
    UP.TurnBranches(lines, index, floatOk, m, v);
    U.StepSplit(lines, index, floatOk, m, key, value);
  }

  /** Storing one entry keeps every field's slot, so every entry that was accepted still is. */
  lemma SetOneKeepsAccepts(fs: seq<U.Field>, index: map<string, nat>, e: M.Entry, es: seq<M.Entry>)
    requires M.IsScalar(e.val) && forall k :: 0 <= k < |es| ==> M.IsScalar(es[k].val) && Accepts(fs, index, es[k])
    ensures forall k :: 0 <= k < |es| ==> Accepts(SetOne(fs, index, e), index, es[k])
  {
  }

  /** Storing the entry at `c` keeps every later entry accepted. */
  lemma AcceptsAfterOne(fs: seq<U.Field>, index: map<string, nat>, es: seq<M.Entry>, c: nat)
    requires c < |es| && forall k :: 0 <= k < |es| ==> M.IsScalar(es[k].val)
    requires forall k :: c <= k < |es| ==> Accepts(fs, index, es[k])
    ensures forall k :: c + 1 <= k < |es| ==> Accepts(SetOne(fs, index, es[c]), index, es[k])
  {
    SetOneKeepsAccepts(fs, index, es[c], es[c + 1..]);
    forall k | c + 1 <= k < |es| ensures Accepts(SetOne(fs, index, es[c]), index, es[k]) {
      assert es[k] == es[c + 1..][k - c - 1];
    }
  }

  /** One line of the record moves the loop on to the next, with that line's entry stored. */
  lemma StructLineAdvances(lines: seq<string>, es: seq<M.Entry>, index: map<string, nat>, floatOk: FloatSyntax, m: U.Machine)
    returns (m': U.Machine)
    requires m.cursor < |es| && ReadableEntry(es[m.cursor], floatOk) && '[' !in es[m.cursor].name
    requires m.cursor < |lines| && lines[m.cursor] == MP.ScalarLine(es[m.cursor])
    requires m.target.StructTarget? && m.lastIndent == 1 && U.Fits(index, m.target)
    requires Accepts(m.target.fields, index, es[m.cursor])
    ensures m' == m.(cursor := m.cursor + 1, target := U.StructTarget(SetOne(m.target.fields, index, es[m.cursor])))
    ensures U.Fits(index, m'.target)
    ensures U.RunFrom(lines, index, floatOk, m) == U.RunFrom(lines, index, floatOk, m')
  {
    var e := es[m.cursor];
    ScalarLineIntoStruct(lines, index, floatOk, m, e);
    m' := m.(cursor := m.cursor + 1, target := U.StructTarget(SetOne(m.target.fields, index, e)));
  }

  /** Storing the entries from position `c` on stores the one at `c`, then the rest. */
  lemma SetAllFrom(fs: seq<U.Field>, index: map<string, nat>, es: seq<M.Entry>, c: nat)
    requires c < |es| && forall k :: 0 <= k < |es| ==> M.IsScalar(es[k].val)
    ensures SetAll(fs, index, es[c..]) == SetAll(SetOne(fs, index, es[c]), index, es[c + 1..])
  {
    assert es[c..][1..] == es[c + 1..];
  }

  /** The rest of the record's lines, from the cursor on, assign the rest of its entries. */
  lemma {:induction false} LinesIntoStruct(lines: seq<string>, es: seq<M.Entry>, index: map<string, nat>, floatOk: FloatSyntax, m: U.Machine)
    requires forall k :: 0 <= k < |es| ==> M.IsScalar(es[k].val) && ReadableEntry(es[k], floatOk) && '[' !in es[k].name
    requires lines == MP.ScalarLines(es)
    requires m.cursor <= |lines| && m.target.StructTarget? && m.lastIndent == 1 && U.Fits(index, m.target)
    requires forall k :: m.cursor <= k < |es| ==> Accepts(m.target.fields, index, es[k])
    ensures U.RunFrom(lines, index, floatOk, m) == (U.StructTarget(SetAll(m.target.fields, index, es[m.cursor..])), None)
    decreases |lines| - m.cursor
  {
    if m.cursor == |lines| {
      assert es[m.cursor..] == [];
    } else {
      assert lines[m.cursor] == MP.ScalarLine(es[m.cursor]);
      var m' := StructLineAdvances(lines, es, index, floatOk, m);
      AcceptsAfterOne(m.target.fields, index, es, m.cursor);
      LinesIntoStruct(lines, es, index, floatOk, m');
      SetAllFrom(m.target.fields, index, es, m.cursor);
    }
  }

  /** The line loop over a record's lines, from the start, into a struct. */
  lemma RecordRunIntoStruct(es: seq<M.Entry>, fs: seq<U.Field>, floatOk: FloatSyntax)
    requires forall k :: 0 <= k < |es| ==> M.IsScalar(es[k].val) && ReadableEntry(es[k], floatOk) && '[' !in es[k].name
    requires forall k :: 0 <= k < |es| ==> Accepts(fs, U.IndexOf(U.StructTarget(fs)), es[k])
    ensures var t := U.StructTarget(fs);
      U.RunFrom(MP.ScalarLines(es), U.IndexOf(t), floatOk, U.Start(t)) ==
        (U.StructTarget(if es == [] then fs else SetAll(fs, U.IndexOf(t), es[1..])), None)
  {
    var lines := MP.ScalarLines(es);
    var t := U.StructTarget(fs);
    var index := U.IndexOf(t);
    if es != [] {
      ScalarRoundTrip(es[0].val, floatOk);
      UP.FirstLineSwallowed(lines, t, floatOk, es[0].name, M.ScalarText(es[0].val));
      var m := U.Step(lines, index, floatOk, U.Start(t)).value;
      LinesIntoStruct(lines, es, index, floatOk, m);
      assert es[1..] == es[m.cursor..];
    }
  }

  /**
    A record of scalars, written by the encoder and decoded into a struct
    whose fields are tagged with the entries' names and whose kinds take
    their values: every entry but the first is assigned to the last field
    carrying its name as tag, and no error is reported. The first line is
    lost.
   */
  lemma FlatRecordIntoStruct(es: seq<M.Entry>, fs: seq<U.Field>, floatOk: FloatSyntax)
    requires forall k :: 0 <= k < |es| ==> ReadableEntry(es[k], floatOk) && '[' !in es[k].name
    requires forall k :: 0 <= k < |es| ==> M.IsScalar(es[k].val) && Accepts(fs, U.TagIndex(U.Tags(fs)), es[k])
    ensures M.RecordText(M.Rec(es)).Success?
    ensures U.Decode(M.RecordText(M.Rec(es)).value, U.PointerTo(U.StructTarget(fs)), floatOk) ==
      (U.PointerTo(U.StructTarget(if es == [] then fs else SetAll(fs, U.TagIndex(U.Tags(fs)), es[1..]))), None)
  {
    assert forall k :: 0 <= k < |es| ==> M.IsScalar(es[k].val) && ReadableEntry(es[k], floatOk);
    MP.ScalarRecordLayout(M.Rec(es));
    RecordLines(es, floatOk);
    RecordRunIntoStruct(es, fs, floatOk);
    DecodePointer(Terminated(MP.ScalarLines(es)), U.StructTarget(fs), floatOk);
  }

  /** `Unmarshal` through a non-nil pointer is the line loop over the lines of the data. */
  lemma DecodePointer(data: string, t: U.Target, floatOk: FloatSyntax)
    ensures var run := U.RunFrom(Lines(data), U.IndexOf(t), floatOk, U.Start(t));
      U.Decode(data, U.PointerTo(t), floatOk) == (U.PointerTo(run.0), run.1)
  {
  }

  // ---------------------------------------------------------------------------
  // An inline list of ints

  function Ints(xs: seq<int>): (r: seq<M.Val>)
    ensures |r| == |xs| && forall k :: 0 <= k < |xs| ==> r[k] == M.Int(xs[k])
  {
    seq(|xs|, k requires 0 <= k < |xs| => M.Int(xs[k]))
  }

  /** Every character of a comma join comes from a part or is a comma. */
  lemma {:induction false} JoinCharsIn(parts: seq<string>, chars: set<char>)
    requires ',' in chars
    requires forall k, i :: 0 <= k < |parts| && 0 <= i < |parts[k]| ==> parts[k][i] in chars
    ensures forall i :: 0 <= i < |Join(parts, ",")| ==> Join(parts, ",")[i] in chars
    decreases |parts|
  {
    if |parts| > 1 {
      var init := parts[..|parts| - 1];
      JoinCharsIn(init, chars);
      var a, b := Join(init, ","), parts[|parts| - 1];
      assert Join(parts, ",") == a + "," + b;
      forall i | 0 <= i < |a + "," + b| ensures (a + "," + b)[i] in chars {
        if i < |a| {
        } else if i == |a| {
        } else {
          assert (a + "," + b)[i] == b[i - |a| - 1];
        }
      }
    }
  }

  function DecimalsOf(ns: seq<int>): (r: seq<string>)
    ensures |r| == |ns| && forall k :: 0 <= k < |ns| ==> r[k] == Decimal(ns[k])
  {
    seq(|ns|, k requires 0 <= k < |ns| => Decimal(ns[k]))
  }

  /** A typed slice of ints is written inline, each element as its decimal. */
  lemma IntsInline(xs: seq<int>)
    requires |xs| > 0
    ensures var v := M.Lst(Ints(xs), false);
      (forall k :: 0 <= k < |xs| ==> M.InlineOk(v, k) && M.IsScalar(M.Elem(v, k))) &&
      M.InlineTexts(v, |xs|) == DecimalsOf(xs)
  {
    var v := M.Lst(Ints(xs), false);
    assert forall k :: 0 <= k < |xs| ==> M.Elem(v, k) == M.Int(xs[k]);
  }

  /** Digits, minus signs and commas only: the text of a list of ints. */
  predicate NumberText(s: string)
  {
    forall i :: 0 <= i < |s| ==> s[i] in DecimalDigits + {'-', ','}
  }

  lemma NumberTextHasNo(s: string)
    requires NumberText(s)
    ensures '"' !in s && '.' !in s && ':' !in s && '\n' !in s
  {
    forall i | 0 <= i < |s| ensures s[i] != '"' && s[i] != '.' && s[i] != ':' && s[i] != '\n' {
      assert s[i] in DecimalDigits + {'-', ','};
    }
  }


  /**
    The inline text of two or more ints, `1,2`, is one token that
    `recognizeType` sends to Atoi (it has a digit, no quote, no dot), which
    refuses the comma.
   */
  lemma IntsTextFails(ns: seq<int>, floatOk: FloatSyntax)
    requires |ns| >= 2
    ensures var body := Join(DecimalsOf(ns), ",");
      && Trimmed(body) && ':' !in body && '\n' !in body
      && Classify.Classify(body, floatOk) == Failure(NumberFormat(body))
  {
    var body := Join(DecimalsOf(ns), ",");
    IntsTextChars(ns);
    NumberTextHasNo(body);
    NumberCharsTrimmed(body);
    var i := IntsTextComma(ns);
    DigitTokenWithOtherCharFails(body, floatOk, i);
  }

  lemma IntsTextChars(ns: seq<int>)
    ensures NumberText(Join(DecimalsOf(ns), ","))
  {
    var texts := DecimalsOf(ns);
    var chars := DecimalDigits + {'-', ','};
    forall k, i | 0 <= k < |texts| && 0 <= i < |texts[k]| ensures texts[k][i] in chars {
      DecimalChars(ns[k]);
    }
    JoinCharsIn(texts, chars);
  }

  /** The text of two or more ints has a digit, and a comma after its first character. */
  lemma IntsTextComma(ns: seq<int>) returns (i: nat)
    requires |ns| >= 2
    ensures var body := Join(DecimalsOf(ns), ",");
      1 <= i < |body| && body[i] == ',' && HasDigit(body)
  {
    var texts := DecimalsOf(ns);
    var a := Join(texts[..|texts| - 1], ",");
    var b := texts[|texts| - 1];
    assert Join(texts, ",") == a + "," + b;
    if |texts| == 2 { assert a == texts[0]; }
    DecimalChars(ns[|ns| - 1]);
    CommaJoinShape(a, b, if ns[|ns| - 1] < 0 then 1 else 0);
    i := |a|;
  }

  /** A text of digits, signs and commas has no white space at either end. */
  lemma NumberCharsTrimmed(s: string)
    requires NumberText(s)
    ensures Trimmed(s)
  {
    if s != [] {
      assert s[0] in DecimalDigits + {'-', ','};
      assert s[|s| - 1] in DecimalDigits + {'-', ','};
    }
  }

  /** `a,b` has its comma right after `a`, and a digit wherever `b` has one. */
  lemma CommaJoinShape(a: string, b: string, d: nat)
    requires d < |b| && IsDigit(b[d])
    ensures (a + "," + b)[|a|] == ','
    ensures HasDigit(a + "," + b)
  {
    var s := a + "," + b;
    assert s[|a| + 1 + d] == b[d];
    assert s[|a| + 1 + d] in DecimalDigits;
  }

  lemma TerminatedOne(line: string)
    ensures Terminated([line]) == line + "\n"
  {
    assert [line][..0] == [];
  }

  /**
    A record whose only entry is a slice of two or more ints: the encoder
    writes `name[N]: 1,2`, which the decoder does not take for a list
    header (its value part is not empty) but for one scalar token, and
    that token is a number format error. The destination is left as it was.
   */
  lemma InlineIntListDoesNotDecode(name: string, xs: seq<int>, t: U.Target, floatOk: FloatSyntax)
    requires |xs| >= 2
    requires UP.PlainName(name) && Trimmed(name) && ':' !in name
    ensures var v := M.Lst(Ints(xs), false);
      && M.RecordText(M.Rec([M.Entry(name, v, false)])).Success?
      && var body := Join(DecimalsOf(xs), ",");
        U.Decode(M.RecordText(M.Rec([M.Entry(name, v, false)])).value, U.PointerTo(t), floatOk) ==
          (U.PointerTo(t), Some(U.BadToken(NumberFormat(body))))
  {
    var line := name + M.LengthTag(|xs|) + ": " + Join(DecimalsOf(xs), ",");
    var lines := [line];
    var err := U.BadToken(NumberFormat(Join(DecimalsOf(xs), ",")));
    InlineIntsText(name, xs);
    InlineIntsLine(name, xs, t, floatOk);
    assert U.RunFrom(lines, U.IndexOf(t), floatOk, U.Start(t)) == (t, Some(err));
    DecodePointer(line + "\n", t, floatOk);
  }

  /** The encoder's text for the record: one line, `name[N]: ` and the ints joined by commas. */
  lemma InlineIntsText(name: string, xs: seq<int>)
    requires |xs| >= 2
    ensures M.RecordText(M.Rec([M.Entry(name, M.Lst(Ints(xs), false), false)])) ==
      Success(name + M.LengthTag(|xs|) + ": " + Join(DecimalsOf(xs), ",") + "\n")
  {
    var v := M.Lst(Ints(xs), false);
    IntsInline(xs);
    MP.InlineArrayLayout(name, v);
    assert M.EntryPieces(M.Rec([M.Entry(name, v, false)])) == [M.EntryText(name, v)];
  }

  /** The decoder scans that text as one line, and its first step stops with the token's error. */
  lemma InlineIntsLine(name: string, xs: seq<int>, t: U.Target, floatOk: FloatSyntax)
    requires |xs| >= 2
    requires UP.PlainName(name) && Trimmed(name) && ':' !in name
    ensures var body := Join(DecimalsOf(xs), ",");
      var line := name + M.LengthTag(|xs|) + ": " + body;
      && Lines(line + "\n") == [line]
      && U.Step([line], U.IndexOf(t), floatOk, U.Start(t)) == Failure(U.BadToken(NumberFormat(body)))
  {
    var body := Join(DecimalsOf(xs), ",");
    var line := name + M.LengthTag(|xs|) + ": " + body;
    InlineIntsOneLine(name, xs);
    InlineIntsStep(name, xs, t, floatOk);
  }

  lemma InlineIntsOneLine(name: string, xs: seq<int>)
    requires |xs| >= 2
    requires UP.PlainName(name) && Trimmed(name) && ':' !in name
    ensures var line := name + M.LengthTag(|xs|) + ": " + Join(DecimalsOf(xs), ",");
      Lines(line + "\n") == [line]
  {
    var body := Join(DecimalsOf(xs), ",");
    var line := name + M.LengthTag(|xs|) + ": " + body;
    IntsTextFails(xs, _ => false);
    InlineLineParts(name, |xs|, body);
    TerminatedOne(line);
    LinesOfTerminated([line]);
  }

  lemma InlineIntsStep(name: string, xs: seq<int>, t: U.Target, floatOk: FloatSyntax)
    requires |xs| >= 2
    requires UP.PlainName(name) && Trimmed(name) && ':' !in name
    ensures var body := Join(DecimalsOf(xs), ",");
      U.Step([name + M.LengthTag(|xs|) + ": " + body], U.IndexOf(t), floatOk, U.Start(t)) == Failure(U.BadToken(NumberFormat(body)))
  {
    var body := Join(DecimalsOf(xs), ",");
    var key := name + M.LengthTag(|xs|);
    var line := key + ": " + body;
    IntsTextFails(xs, floatOk);
    InlineLineParts(name, |xs|, body);
    TrimSpaceAfterSpace(body);
    UP.BadTokenStops([line], U.IndexOf(t), floatOk, U.Start(t), key, " " + body);
  }

  /** The line `name[N]: body` splits into a key that measures zero and ` body`, and is one line when the body is. */
  lemma InlineLineParts(name: string, n: nat, body: string)
    requires UP.PlainName(name) && Trimmed(name) && ':' !in name && '\n' !in body
    ensures var key := name + M.LengthTag(n);
      && SplitN2(key + ": " + body, ':') == [key, " " + body]
      && U.Indentation(key) == 0
      && '\n' !in key + ": " + body
  {
    var key := name + M.LengthTag(n);
    assert ':' !in key && '\n' !in key by {
      DecimalChars(n);
    }
    assert key + ": " + body == key + [':'] + (" " + body);
    SplitN2At(key, ':', " " + body);
    assert Trimmed(key) by {
      assert key[|key| - 1] == ']';
    }
    UP.TrimmedKeyMeasuresZero(key);
  }
}
