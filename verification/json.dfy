/** The two `encoding/json` calls the serde wrappers make: marshalling a Go
    string, and unmarshalling a document into an `int64`. */
module Json {
  import opened Errors
  import GoInts
  import Strconv

  /** Characters `json.Marshal` copies into a string literal unescaped (it
      escapes quotes, backslashes, control characters and `<`, `>`, `&`). */
  predicate Plain(c: char) {
    c >= ' ' && c != '"' && c != '\\' && c != '<' && c != '>' && c != '&' && c as int < 0x80
  }

  /** `json.Marshal` of a Go string made of plain characters. */
  function MarshalString(s: string): (doc: string)
    requires forall i :: 0 <= i < |s| ==> Plain(s[i])
    ensures |doc| == |s| + 2 && doc[0] == '"' && doc[|doc| - 1] == '"'
    ensures doc[1..|doc| - 1] == s
  {
    "\"" + s + "\""
  }

  predicate IsSpace(c: char) {
    c == ' ' || c == '\t' || c == '\n' || c == '\r'
  }

  /** The document without the insignificant whitespace around the value. */
  function Trim(s: string): (t: string)
    ensures |t| <= |s|
    ensures |t| > 0 ==> !IsSpace(t[0]) && !IsSpace(t[|t| - 1])
    decreases |s|
  {
    if |s| > 0 && IsSpace(s[0]) then Trim(s[1..])
    else if |s| > 0 && IsSpace(s[|s| - 1]) then Trim(s[..|s| - 1])
    else s
  }

  /** A JSON number with no fraction and no exponent: `-?(0|[1-9][0-9]*)`. */
  predicate IsIntLiteral(s: string) {
    var digits := if |s| > 0 && s[0] == '-' then s[1..] else s;
    |digits| >= 1 && Strconv.AllDigits(digits) && (digits[0] == '0' ==> |digits| == 1)
  }

  function IntLiteralValue(s: string): (v: int)
    requires IsIntLiteral(s)
  {
    if s[0] == '-' then 0 - Strconv.DigitsValue(s[1..]) else Strconv.DigitsValue(s)
  }

  /** `json.Unmarshal(doc, &v)` with `v` an `int64` holding 0: `null` leaves
      `v` at 0 (`Ok(None)`), an integer literal in range sets it, and every
      other document (a string, an object, a fraction, an out-of-range number,
      bad syntax) is an error. */
  function UnmarshalInt64(doc: string): (r: Result<Option<int>>)
    ensures r.Ok? && r.value.Some? ==> GoInts.IsInt64(r.value.value)
    ensures r.Ok? ==> Trim(doc) == "null" || IsIntLiteral(Trim(doc))
    ensures r.Ok? && r.value.Some? ==> IsIntLiteral(Trim(doc)) && r.value.value == IntLiteralValue(Trim(doc))
    ensures !r.Ok? ==> r == Err(ErrDecode)
  {
    var t := Trim(doc);
    if t == "null" then Ok(None)
    else if IsIntLiteral(t) && GoInts.IsInt64(IntLiteralValue(t)) then Ok(Some(IntLiteralValue(t)))
    else Err(ErrDecode)
  }

  /** A quoted document is never an integer, so `int64` decoding rejects it. */
  lemma QuotedIsNotInt(s: string)
    requires forall i :: 0 <= i < |s| ==> Plain(s[i])
    ensures UnmarshalInt64(MarshalString(s)) == Err(ErrDecode)
  {
    var doc := MarshalString(s);
    assert Trim(doc) == doc;
    assert doc[0] == '"';
  }

  /** Decimal rendering parses back: the bare `FormatInt` text of an int64 is
      a JSON integer that decodes to the same value. */
  lemma {:induction false} FormatIntDecodes(x: int)
    requires GoInts.IsInt64(x)
    ensures UnmarshalInt64(Strconv.FormatInt(x)) == Ok(Some(x))
  {
    var s := Strconv.FormatInt(x);
    FormatIntLiteral(x);
    TrimDigits(s);
    NotNull(s);
  }

  /** The `FormatInt` text of `x` is an integer literal denoting `x`. */
  lemma FormatIntLiteral(x: int)
    ensures var s := Strconv.FormatInt(x);
      IsIntLiteral(s) && IntLiteralValue(s) == x && (s[0] == '-' || Strconv.IsDigit(s[0]))
  {
    var s := Strconv.FormatInt(x);
    if x < 0 {
      Strconv.DigitsRoundTrip(-x);
      assert s[1..] == Strconv.NatDigits(-x);
    } else {
      Strconv.DigitsRoundTrip(x);
      assert Strconv.IsDigit(s[0]);
    }
  }

  /** A text starting with a sign or a digit is not `null`. */
  lemma NotNull(s: string)
    requires |s| >= 1 && (s[0] == '-' || Strconv.IsDigit(s[0]))
    ensures s != "null"
  {
    assert "null"[0] == 'n';
  }

  lemma TrimDigits(s: string)
    requires |s| >= 1 && !IsSpace(s[0]) && !IsSpace(s[|s| - 1])
    ensures Trim(s) == s
  {
  }
}
