/**
  Scalar type inference: the ordered case analysis that turns one trimmed
  token into a Bool, Null, Int, Float, list of strings or String
  (goon/utils.go, `recognizeType`).
 */
module Classify {
  import opened Wrappers
  import opened GoText

  /** The dynamic kind and value of the `reflect.Value` that `recognizeType` returns. */
  datatype Scalar =
    | SBool(b: bool)
    | SNull                          // reflect.ValueOf(nil): the invalid Value
    | SInt(i: int)
    | SFloat(token: string)          // the float64 of an accepted token, kept as its text
    | SStrList(items: seq<string>)   // a []reflect.Value of strings, from the comma branch
    | SStr(s: string)

  /** A `*strconv.NumError` from Atoi or ParseFloat, naming the token. */
  datatype ClassError = NumberFormat(token: string)

  /**
    The acceptance test of `strconv.ParseFloat(s, 64)`. Floating-point syntax
    and range are not modelled: callers supply the test.
   */
  type FloatSyntax = string -> bool

  const DecimalDigits: set<char> := {'0', '1', '2', '3', '4', '5', '6', '7', '8', '9'}

  predicate HasDigit(s: string) { ContainsAny(s, DecimalDigits) }

  /**
    The elements of the comma branch. The source loops over the parts of
    `strings.Split(s, ",")`, but each element is computed from the whole token
    `s` rather than from the part: every element is the token without one
    trailing quote (the leading-quote cut is overwritten by the next line).
   */
  function CommaItems(s: string): seq<string>
  {
    var parts := Split(s, ',');
    seq(|parts|, _ => CutSuffix(s, "\""))
  }

  /** `recognizeType`. */
  function Classify(s: string, floatOk: FloatSyntax): (r: Result<Scalar, ClassError>)
    // only the number branches fail, and the error names the whole token
    ensures r.Failure? ==> HasDigit(s) && '"' !in s && r.error == NumberFormat(s)
  {
    if s == "true" then Success(SBool(true))
    else if s == "false" then Success(SBool(false))
    else if s == "null" then Success(SNull)
    else if HasDigit(s) && !('"' in s || '.' in s) then
      match Atoi(s)
      case Some(i) => Success(SInt(i))
      case None => Failure(NumberFormat(s))
    else if HasDigit(s) && '"' !in s && '.' in s then
      if floatOk(s) then Success(SFloat(s)) else Failure(NumberFormat(s))
    else if ',' in s && !HasPrefix(s, "\"") then
      Success(SStrList(CommaItems(s)))
    else
      Success(SStr(CutSuffix(CutPrefix(s, "\""), "\"")))
  }

  /** What `recognizeType` returns for each kind of token. */
  lemma ClassifyCases(s: string, floatOk: FloatSyntax)
    // Only the two number branches fail, and exactly when their parser rejects the token.
    ensures Classify(s, floatOk).Failure? <==>
      HasDigit(s) && '"' !in s && (if '.' in s then !floatOk(s) else Atoi(s).None?)
    ensures Classify(s, floatOk).Failure? ==> Classify(s, floatOk).error == NumberFormat(s)
    ensures Classify(s, floatOk).Success? && Classify(s, floatOk).value.SBool? <==> s == "true" || s == "false"
    ensures Classify(s, floatOk).Success? && Classify(s, floatOk).value.SBool? ==>
      Classify(s, floatOk).value.b == (s == "true")
    // Null comes from the word null only; the empty token is the empty String.
    ensures Classify(s, floatOk).Success? && Classify(s, floatOk).value.SNull? <==> s == "null"
    ensures Classify(s, floatOk).Success? && Classify(s, floatOk).value.SInt? <==>
      HasDigit(s) && '"' !in s && '.' !in s && Atoi(s).Some?
    ensures Classify(s, floatOk).Success? && Classify(s, floatOk).value.SInt? ==>
      Atoi(s) == Some(Classify(s, floatOk).value.i)
    ensures Classify(s, floatOk).Success? && Classify(s, floatOk).value.SFloat? ==>
      Classify(s, floatOk).value.token == s && floatOk(s)
  {
    if s == "true" || s == "false" || s == "null" {
      WordHasNoDigit(s);
    }
  }

  lemma WordHasNoDigit(s: string)
    requires s == "true" || s == "false" || s == "null"
    ensures !HasDigit(s)
  {
    forall i | 0 <= i < |s| ensures s[i] !in DecimalDigits {
    }
  }

  /**
    The comma branch is reached only when no number branch applies and the
    token does not start with a quote; it yields one element per comma plus
    one, each equal to the whole token less one trailing quote.
   */
  lemma CommaBranch(s: string, floatOk: FloatSyntax)
    requires ',' in s && !HasPrefix(s, "\"")
    requires !HasDigit(s) || '"' in s
    ensures Classify(s, floatOk).Success?
    ensures Classify(s, floatOk).value.SStrList?
    ensures |Classify(s, floatOk).value.items| == Count(s, ',') + 1
    ensures forall k :: 0 <= k < |Classify(s, floatOk).value.items| ==>
      Classify(s, floatOk).value.items[k] == CutSuffix(s, "\"")
  {
    assert s != "true" && s != "false" && s != "null";
  }

  /**
    Every other token that reaches the last branch is a String with at most one
    leading and at most one trailing quote removed.
   */
  lemma StringBranch(s: string, floatOk: FloatSyntax)
    requires s != "true" && s != "false" && s != "null"
    requires !HasDigit(s) || '"' in s
    requires ',' !in s || HasPrefix(s, "\"")
    ensures Classify(s, floatOk) == Success(SStr(CutSuffix(CutPrefix(s, "\""), "\"")))
    ensures |s| - 2 <= |Classify(s, floatOk).value.s| <= |s|
  {
  }

  /** A quoted token keeps its quotes out of every number branch and comes back as the text between them. */
  lemma {:induction false} QuotedIsString(t: string, floatOk: FloatSyntax)
    ensures Classify("\"" + t + "\"", floatOk) == Success(SStr(t))
  {
    var q := "\"" + t + "\"";
    assert q[0] == '"';
    assert HasPrefix(q, "\"");
    assert q != "true" && q != "false" && q != "null";
    assert CutPrefix(q, "\"") == t + "\"";
    assert HasSuffix(t + "\"", "\"");
    assert (t + "\"")[..|t|] == t;
  }

  /** Every 64-bit integer written in decimal is read back as that Int. */
  lemma {:induction false} DecimalIsInt(n: int, floatOk: FloatSyntax)
    requires InInt64(n)
    ensures Classify(Decimal(n), floatOk) == Success(SInt(n))
  {
    var d := Decimal(n);
    AtoiOfDecimal(n);
    DecimalChars(n);
    var k := if n < 0 then 1 else 0;
    assert d[k] in DecimalDigits;
    DigitTokenIsNoWord(d);
    assert '"' !in d && '.' !in d;
  }

  /** The words the encoder writes for booleans are read back as those Bools. */
  lemma BoolWords(b: bool, floatOk: FloatSyntax)
    ensures Classify(if b then "true" else "false", floatOk) == Success(SBool(b))
  {
  }

  /**
    A token with a digit, no quote and no dot goes to Atoi, so any other
    character after its first one makes it an error: `1,2,3`, `abc1` and `12a`
    are errors, not lists or strings.
   */
  lemma DigitTokenWithOtherCharFails(s: string, floatOk: FloatSyntax, i: nat)
    requires HasDigit(s) && '"' !in s && '.' !in s
    requires 1 <= i < |s| && !IsDigit(s[i])
    ensures Classify(s, floatOk) == Failure(NumberFormat(s))
  {
    DigitTokenIsNoWord(s);
    AtoiRejectsLaterNonDigit(s, i);
  }

  lemma DigitTokenIsNoWord(s: string)
    requires HasDigit(s)
    ensures s != "true" && s != "false" && s != "null"
  {
    var i :| 0 <= i < |s| && s[i] in DecimalDigits;
  }

  lemma AtoiRejectsLaterNonDigit(s: string, i: nat)
    requires 1 <= i < |s| && !IsDigit(s[i])
    ensures Atoi(s).None?
  {
    AtoiAccepts(s);
    assert s[1..][i - 1] == s[i];
  }

  lemma DigitTokensFail(floatOk: FloatSyntax)
    ensures Classify("1,2,3", floatOk).Failure?
    ensures Classify("abc1", floatOk).Failure?
    ensures Classify("12a", floatOk).Failure?
  {
    assert "1,2,3"[0] in DecimalDigits;
    DigitTokenWithOtherCharFails("1,2,3", floatOk, 1);
    assert "abc1"[3] in DecimalDigits;
    DigitTokenWithOtherCharFails("abc1", floatOk, 1);
    assert "12a"[0] in DecimalDigits;
    DigitTokenWithOtherCharFails("12a", floatOk, 2);
  }
}
