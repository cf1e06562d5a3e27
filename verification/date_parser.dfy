/** The ISO 8601 profile of the W3C note "Date and Time Formats" (NOTE-datetime-19980827):
    YYYY, YYYY-MM, YYYY-MM-DD, YYYY-MM-DDThh:mm(TZD), YYYY-MM-DDThh:mm:ss(TZD) and
    YYYY-MM-DDThh:mm:ss.s(TZD). The parser reads tokens from a `StringTokenizer` that returns
    the delimiters "-T:.+Z" as tokens of their own, sets calendar fields one by one and
    applies a signed time-zone offset. The calendar is modelled by the fields it was given
    (a cleared calendar reads as 1970-01-01T00:00:00.000) plus the offset added to it;
    the calendar's own normalisation of out-of-range fields is not modelled. */
module DateParser {
  import opened Wrappers
  import opened JavaText

  // ---------------------------------------------------------------------------------------
  // Tokens

  predicate IsDelimiter(c: char) {
    c == '-' || c == 'T' || c == ':' || c == '.' || c == '+' || c == 'Z'
  }

  /** A delimiter on its own. */
  predicate IsDelimiterToken(t: string) { |t| == 1 && IsDelimiter(t[0]) }

  /** A non-empty run of characters none of which is a delimiter. */
  predicate IsWord(t: string) { |t| >= 1 && forall i :: 0 <= i < |t| ==> !IsDelimiter(t[i]) }

  predicate IsToken(t: string) { IsDelimiterToken(t) || IsWord(t) }

  /** Length of the run of non-delimiters at the start of `s`. */
  function RunLength(s: string): (n: nat)
    ensures n <= |s|
    ensures forall i :: 0 <= i < n ==> !IsDelimiter(s[i])
    ensures n < |s| ==> IsDelimiter(s[n])
  {
    if s == [] || IsDelimiter(s[0]) then 0 else 1 + RunLength(s[1..])
  }

  /** What `new StringTokenizer(s, "-T:.+Z", true)` hands out, in order. */
  function Tokenize(s: string): (toks: seq<string>)
    ensures forall i :: 0 <= i < |toks| ==> IsToken(toks[i])
    decreases |s|
  {
    if s == [] then []
    else if IsDelimiter(s[0]) then [[s[0]]] + Tokenize(s[1..])
    else
      var n := RunLength(s);
      [s[..n]] + Tokenize(s[n..])
  }

  function Concat(toks: seq<string>): string {
    if toks == [] then "" else toks[0] + Concat(toks[1..])
  }

  /** Tokens that can be told apart again: no two words side by side. */
  predicate Separable(toks: seq<string>) {
    && (forall i :: 0 <= i < |toks| ==> IsToken(toks[i]))
    && (forall i :: 0 <= i < |toks| - 1 ==> IsDelimiterToken(toks[i]) || IsDelimiterToken(toks[i + 1]))
  }

  lemma TokenizeWordFirst(w: string, rest: string)
    requires IsWord(w)
    requires rest == [] || IsDelimiter(rest[0])
    ensures Tokenize(w + rest) == [w] + Tokenize(rest)
  {
    var s := w + rest;
    RunLengthOfWord(w, rest);
    assert s[..|w|] == w && s[|w|..] == rest;
  }

  lemma {:induction false} RunLengthOfWord(w: string, rest: string)
    requires IsWord(w)
    requires rest == [] || IsDelimiter(rest[0])
    ensures RunLength(w + rest) == |w|
  {
    if |w| > 1 {
      assert (w + rest)[1..] == w[1..] + rest;
      RunLengthOfWord(w[1..], rest);
    } else {
      assert (w + rest)[1..] == rest;
    }
  }

  /** Splitting the concatenation of separable tokens gives those tokens back: the
      tokenizer is a left inverse of concatenation. */
  lemma {:induction false} TokenizeConcat(toks: seq<string>)
    requires Separable(toks)
    ensures Tokenize(Concat(toks)) == toks
  {
    if toks != [] {
      var rest := Concat(toks[1..]);
      assert Separable(toks[1..]);
      TokenizeConcat(toks[1..]);
      if IsDelimiterToken(toks[0]) {
        assert ([toks[0][0]] + rest)[1..] == rest;
        assert toks[0] == [toks[0][0]];
      } else {
        assert |toks| > 1 ==> IsDelimiterToken(toks[1]);
        assert |toks| > 1 ==> rest == toks[1] + Concat(toks[2..]);
        TokenizeWordFirst(toks[0], rest);
      }
    }
  }

  // ---------------------------------------------------------------------------------------
  // The calendar being filled and the parse result

  /** Calendar fields as `Calendar.set` stores them; `month` is 0-based like Calendar.MONTH. */
  datatype Fields = Fields(year: int, month: int, day: int, hour: int, minute: int,
                           second: int, millis: int)

  /** A cleared GregorianCalendar: every field at its default. */
  const Cleared := Fields(1970, 0, 1, 0, 0, 0, 0)

  /** The fields that were set and the number of minutes the zone designator added to them
      (`add(HOUR, ±hh)` then `add(MINUTE, ±mm)`, the negations in Java `int`). */
  datatype Parsed = Parsed(fields: Fields, offsetMinutes: int)

  datatype DateError =
    | InvalidDate(message: string)   // InvalidDateException
    | NoSuchElement                  // NoSuchElementException escaping the parser

  function Missing(token: string): DateError { InvalidDate("Missing [" + token + "]") }

  /** The message a NumberFormatException on `tok` is turned into. */
  function NotAnInteger(tok: string): DateError {
    InvalidDate("[For input string: \"" + tok + "\"] is not an integer")
  }

  function Zeros(n: nat): (z: string)
    ensures |z| == n && AllDigits(z)
    ensures forall i :: 0 <= i < n ==> z[i] == '0'
  {
    seq(n, _ => '0')
  }

  /** The fraction digits after padding with '0' to three characters and cutting to three. */
  function MillisDigits(nt: string): (r: string)
    ensures |r| == 3
    ensures |nt| >= 3 ==> r == nt[..3]
    ensures |nt| < 3 ==> r[..|nt|] == nt && r[|nt|..] == Zeros(3 - |nt|)
  {
    if |nt| >= 3 then nt[..3] else nt + Zeros(3 - |nt|)
  }

  // ---------------------------------------------------------------------------------------
  // The grammar, stage by stage, over the token list

  /** What `check(st, sep) && st.hasMoreTokens()` followed by `parseInt(st.nextToken())`
      yields when the tokenizer stands at index `i`. */
  datatype Step = NoMore | Present(value: int) | Failed(error: DateError)

  function Field(t: seq<string>, i: nat, sep: string): Step
    requires i <= |t|
  {
    if i == |t| then NoMore
    else if t[i] != sep then Failed(Missing(sep))
    else if i + 1 == |t| then NoMore
    else match ParseInt(t[i + 1])
      case Some(v) => Present(v)
      case None => Failed(NotAnInteger(t[i + 1]))
  }

  /** Where the fields phase stops: with a result, or at the index of the zone designator. */
  datatype Stage = Finished(result: Result<Parsed, DateError>) | ZoneAt(index: nat, fields: Fields)

  function FromMonth(t: seq<string>, f: Fields): Stage
    requires |t| >= 1
  {
    match Field(t, 1, "-")
    case NoMore => Finished(Ok(Parsed(f, 0)))
    case Failed(e) => Finished(Err(e))
    case Present(m) => FromDay(t, f.(month := Dec32(m)))
  }

  function FromDay(t: seq<string>, f: Fields): Stage
    requires |t| >= 3
  {
    match Field(t, 3, "-")
    case NoMore => Finished(Ok(Parsed(f, 0)))
    case Failed(e) => Finished(Err(e))
    case Present(d) => FromHour(t, f.(day := d))
  }

  function FromHour(t: seq<string>, f: Fields): Stage
    requires |t| >= 5
  {
    match Field(t, 5, "T")
    case NoMore => Finished(Ok(Parsed(f.(hour := 0, minute := 0, second := 0, millis := 0), 0)))
    case Failed(e) => Finished(Err(e))
    case Present(h) => FromMinute(t, f.(hour := h))
  }

  function FromMinute(t: seq<string>, f: Fields): Stage
    requires |t| >= 7
  {
    match Field(t, 7, ":")
    case NoMore => Finished(Ok(Parsed(f.(minute := 0, second := 0, millis := 0), 0)))
    case Failed(e) => Finished(Err(e))
    case Present(m) => FromSecond(t, f.(minute := m))
  }

  function FromSecond(t: seq<string>, f: Fields): (s: Stage)
    requires |t| >= 9
    ensures s.ZoneAt? ==> s.index < |t|
  {
    if |t| == 9 then Finished(Ok(Parsed(f, 0)))
    else if t[9] != ":" then ZoneAt(9, f.(second := 0, millis := 0))
    else if |t| == 10 then Finished(Err(InvalidDate("No secondes specified")))
    else match ParseInt(t[10])
      case None => Finished(Err(NotAnInteger(t[10])))
      case Some(sec) =>
        var f := f.(second := sec);
        if |t| == 11 then Finished(Ok(Parsed(f, 0)))
        else if t[11] != "." then ZoneAt(11, f.(millis := 0))
        else if |t| == 12 then Finished(Err(NoSuchElement))
        else match ParseInt(MillisDigits(t[12]))
          case None => Finished(Err(NotAnInteger(MillisDigits(t[12]))))
          case Some(ms) =>
            if |t| == 13 then Finished(Ok(Parsed(f.(millis := ms), 0)))
            else ZoneAt(13, f.(millis := ms))
  }

  /** Everything before the zone designator. */
  function ParseFields(t: seq<string>): (s: Stage)
    ensures s.ZoneAt? ==> s.index < |t|
  {
    if |t| == 0 then Finished(Ok(Parsed(Cleared, 0)))
    else match ParseInt(t[0])
      case None => Finished(Err(NotAnInteger(t[0])))
      case Some(y) => FromMonth(t, Cleared.(year := y))
  }

  /** The zone designator at index `i`: "Z", or "+"/"-" followed by hh ":" mm. */
  function ParseZone(t: seq<string>, i: nat, f: Fields): Result<Parsed, DateError>
    requires i < |t|
  {
    var tok := t[i];
    if tok == "Z" then Ok(Parsed(f, 0))
    else if tok != "+" && tok != "-" then Err(InvalidDate("only Z, + or - allowed"))
    else if |t| == i + 1 then Err(InvalidDate("Missing hour field"))
    else match ParseInt(t[i + 1])
      case None => Err(NotAnInteger(t[i + 1]))
      case Some(tzhour) =>
        if |t| == i + 2 then Err(InvalidDate("Missing minute field"))
        else if t[i + 2] != ":" then Err(Missing(":"))
        else if |t| == i + 3 then Err(InvalidDate("Missing minute field"))
        else match ParseInt(t[i + 3])
          case None => Err(NotAnInteger(t[i + 3]))
          case Some(tzmin) =>
            if tok == "+" then Ok(Parsed(f, tzhour * 60 + tzmin))
            else Ok(Parsed(f, Neg32(tzhour) * 60 + Neg32(tzmin)))
  }

  /** The result once the stage that stopped at the zone designator has read it. */
  function Complete(t: seq<string>, s: Stage): Result<Parsed, DateError>
    requires s.ZoneAt? ==> s.index < |t|
  {
    match s
    case Finished(r) => r
    case ZoneAt(i, f) => ParseZone(t, i, f)
  }

  function ParseTokens(t: seq<string>): Result<Parsed, DateError> {
    Complete(t, ParseFields(t))
  }

  /** `DateParser.parse`, up to the calendar's conversion to a Date. */
  function Parse(isodate: string): Result<Parsed, DateError> {
    ParseTokens(Tokenize(isodate))
  }

  // ---------------------------------------------------------------------------------------
  // The imperative parser

  /** `java.util.StringTokenizer` over a fixed token list. */
  class Tokenizer {
    const tokens: seq<string>
    var pos: nat

    ghost predicate Valid() reads this { pos <= |tokens| }

    constructor (s: string)
      ensures tokens == Tokenize(s) && pos == 0 && Valid()
    {
      tokens := Tokenize(s);
      pos := 0;
    }

    predicate HasMoreTokens() reads this { pos < |tokens| }

    /** `None` stands for NoSuchElementException. */
    method NextToken() returns (t: Option<string>)
      requires Valid()
      modifies this
      ensures Valid()
      ensures old(pos) < |tokens| ==> t == Some(tokens[old(pos)]) && pos == old(pos) + 1
      ensures old(pos) == |tokens| ==> t == None && pos == old(pos)
    {
      if pos < |tokens| {
        t := Some(tokens[pos]);
        pos := pos + 1;
      } else {
        t := None;
      }
    }
  }

  /** `check`: consumes one token; true when it is `token`, false when none is left,
      InvalidDateException "Missing [token]" otherwise. */
  method Check(st: Tokenizer, token: string) returns (r: Result<bool, DateError>)
    requires st.Valid()
    modifies st
    ensures st.Valid()
    ensures old(st.pos) == |st.tokens| ==> r == Ok(false) && st.pos == old(st.pos)
    ensures old(st.pos) < |st.tokens| ==> st.pos == old(st.pos) + 1
    ensures old(st.pos) < |st.tokens| && st.tokens[old(st.pos)] == token ==> r == Ok(true)
    ensures old(st.pos) < |st.tokens| && st.tokens[old(st.pos)] != token ==> r == Err(Missing(token))
  {
    var t := st.NextToken();
    if t.None? {
      return Ok(false);
    }
    if t.value == token {
      return Ok(true);
    }
    return Err(Missing(token));
  }

  /** `check(st, sep) && st.hasMoreTokens()` and then `Integer.parseInt(st.nextToken())`. */
  method ReadField(st: Tokenizer, sep: string) returns (s: Step)
    requires st.Valid()
    modifies st
    ensures st.Valid()
    ensures s == Field(st.tokens, old(st.pos), sep)
    ensures s.Present? ==> st.pos == old(st.pos) + 2
  {
    var ok := Check(st, sep);
    if ok.Err? {
      return Failed(ok.error);
    }
    if !(ok.value && st.HasMoreTokens()) {
      return NoMore;
    }
    var tok := st.NextToken();
    var n := ParseInt(tok.value);
    if n.None? {
      return Failed(NotAnInteger(tok.value));
    }
    return Present(n.value);
  }

  /** `getCalendar`: walks the tokens, setting one field per step. */
  method GetCalendar(isodate: string) returns (r: Result<Parsed, DateError>)
    ensures r == Parse(isodate)
  {
    var st := new Tokenizer(isodate);
    ghost var t := st.tokens;
    var cal := Cleared;
    // Year
    if !st.HasMoreTokens() {
      return Ok(Parsed(cal, 0));
    }
    var tok := st.NextToken();
    var n := ParseInt(tok.value);
    if n.None? {
      return Err(NotAnInteger(tok.value));
    }
    cal := cal.(year := n.value);
    ghost var f0 := cal;
    // Month
    var step := ReadField(st, "-");
    match step {
      case NoMore => return Ok(Parsed(cal, 0));
      case Failed(e) => return Err(e);
      case Present(v) => cal := cal.(month := Dec32(v));
    }
    ghost var f1 := cal;
    assert ParseFields(t) == FromDay(t, f1);
    // Day
    step := ReadField(st, "-");
    match step {
      case NoMore => return Ok(Parsed(cal, 0));
      case Failed(e) => return Err(e);
      case Present(v) => cal := cal.(day := v);
    }
    ghost var f2 := cal;
    assert ParseFields(t) == FromHour(t, f2);
    // Hour
    step := ReadField(st, "T");
    match step {
      case NoMore =>
        cal := cal.(hour := 0, minute := 0, second := 0, millis := 0);
        return Ok(Parsed(cal, 0));
      case Failed(e) => return Err(e);
      case Present(v) => cal := cal.(hour := v);
    }
    ghost var f3 := cal;
    assert ParseFields(t) == FromMinute(t, f3);
    // Minutes
    step := ReadField(st, ":");
    match step {
      case NoMore =>
        cal := cal.(minute := 0, second := 0, millis := 0);
        return Ok(Parsed(cal, 0));
      case Failed(e) => return Err(e);
      case Present(v) => cal := cal.(minute := v);
    }
    assert ParseFields(t) == FromSecond(t, cal);
    r := ReadSeconds(st, cal);
  }

  /** The part of `getCalendar` after the minutes: optional seconds, optional fraction,
      optional zone designator. */
  method ReadSeconds(st: Tokenizer, fields: Fields) returns (r: Result<Parsed, DateError>)
    requires st.Valid() && st.pos == 9
    modifies st
    ensures r == Complete(st.tokens, FromSecond(st.tokens, fields))
  {
    ghost var t := st.tokens;
    var cal := fields;
    if !st.HasMoreTokens() {
      return Ok(Parsed(cal, 0));
    }
    var tok := st.NextToken();
    if tok.value == ":" {
      if !st.HasMoreTokens() {
        return Err(InvalidDate("No secondes specified"));
      }
      tok := st.NextToken();
      var n := ParseInt(tok.value);
      if n.None? {
        return Err(NotAnInteger(tok.value));
      }
      cal := cal.(second := n.value);
      if !st.HasMoreTokens() {
        return Ok(Parsed(cal, 0));
      }
      tok := st.NextToken();
      if tok.value == "." {
        var next := st.NextToken();
        if next.None? {
          return Err(NoSuchElement);
        }
        var nt := next.value;
        while |nt| < 3
          invariant |next.value| <= |nt| && nt[..|next.value|] == next.value
          invariant |next.value| < 3 ==> |nt| <= 3
          invariant forall k :: |next.value| <= k < |nt| ==> nt[k] == '0'
          decreases 3 - |nt|
        {
          nt := nt + "0";
        }
        nt := nt[..3];
        assert nt == MillisDigits(next.value);
        n := ParseInt(nt);
        if n.None? {
          return Err(NotAnInteger(nt));
        }
        cal := cal.(millis := n.value);
        if !st.HasMoreTokens() {
          return Ok(Parsed(cal, 0));
        }
        tok := st.NextToken();
      } else {
        cal := cal.(millis := 0);
      }
    } else {
      cal := cal.(second := 0, millis := 0);
    }
    assert FromSecond(t, fields) == ZoneAt(st.pos - 1, cal);
    r := ReadZone(st, cal, tok.value);
  }

  /** The zone designator `tok`, just read: "Z" leaves the calendar alone, "+hh:mm" and
      "-hh:mm" add the signed offset; anything else is an InvalidDateException. */
  method ReadZone(st: Tokenizer, cal: Fields, tok: string) returns (r: Result<Parsed, DateError>)
    requires st.Valid() && 1 <= st.pos && st.tokens[st.pos - 1] == tok
    modifies st
    ensures r == ParseZone(st.tokens, old(st.pos) - 1, cal)
  {
    if tok == "Z" {
      return Ok(Parsed(cal, 0));
    }
    if !(tok == "+" || tok == "-") {
      return Err(InvalidDate("only Z, + or - allowed"));
    }
    if !st.HasMoreTokens() {
      return Err(InvalidDate("Missing hour field"));
    }
    var hourTok := st.NextToken();
    var tzhour := ParseInt(hourTok.value);
    if tzhour.None? {
      return Err(NotAnInteger(hourTok.value));
    }
    var ok := Check(st, ":");
    if ok.Err? {
      return Err(ok.error);
    }
    if !(ok.value && st.HasMoreTokens()) {
      return Err(InvalidDate("Missing minute field"));
    }
    var minTok := st.NextToken();
    var tzmin := ParseInt(minTok.value);
    if tzmin.None? {
      return Err(NotAnInteger(minTok.value));
    }
    if tok == "+" {
      return Ok(Parsed(cal, tzhour.value * 60 + tzmin.value));
    }
    return Ok(Parsed(cal, Neg32(tzhour.value) * 60 + Neg32(tzmin.value)));
  }

  // ---------------------------------------------------------------------------------------
  // Formatting

  lemma ConcatThree(a: string, b: string, c: string)
    ensures Concat([a, b, c]) == a + b + c
  {
    assert [c][1..] == [];
    assert Concat([c]) == c;
    assert [b, c][1..] == [c];
    assert Concat([b, c]) == b + c;
    assert [a, b, c][1..] == [b, c];
  }

  lemma ConcatFour(a: string, b: string, c: string, d: string)
    ensures Concat([a, b, c, d]) == a + b + c + d
  {
    assert [a, b, c, d][1..] == [b, c, d];
    ConcatThree(b, c, d);
    assert a + (b + c + d) == a + b + c + d;
  }

  /** `twoDigit`: the decimal form of `i`, with a leading '0' below ten. */
  function TwoDigit(i: int): (r: string)
    ensures 0 <= i < 10 ==> r == ['0', DigitChar(i)]
    ensures 10 <= i ==> r == NatToString(i)
    ensures i < 0 ==> r == "-" + NatToString(-i)
    ensures 0 <= i < 100 ==> |r| == 2
  {
    if 0 <= i < 10 then "0" + IntToString(i) else IntToString(i)
  }

  /** `twoDigit` prints the decimal digits of a non-negative number, at least two of them
      and exactly two below a hundred. */
  lemma TwoDigitDigits(i: int)
    requires 0 <= i
    ensures IsWord(TwoDigit(i)) && AllDigits(TwoDigit(i)) && DigitsValue(TwoDigit(i)) == i
    ensures |TwoDigit(i)| >= 2
    ensures i < 100 ==> |TwoDigit(i)| == 2
  {
    var s := TwoDigit(i);
    NatToStringDigits(i);
    if i < 10 {
      assert s[..1] == "0";
    } else {
      assert |NatToString(i)| >= 2;
      if i < 100 {
        assert NatToString(i) == NatToString(i / 10) + [DigitChar(i % 10)];
      }
    }
  }

  lemma YearWord(i: int)
    requires 0 <= i
    ensures IsWord(IntToString(i))
  {
    NatToStringDigits(i);
  }

  lemma TwoDigitWord(i: int)
    requires 0 <= i
    ensures IsWord(TwoDigit(i))
  {
    TwoDigitDigits(i);
  }

  /** Fields as a calendar reports them for an instant: every field in its range. */
  predicate Normalized(f: Fields) {
    && 0 <= f.year <= IntMax && 0 <= f.month <= 11 && 1 <= f.day <= 31
    && 0 <= f.hour <= 23 && 0 <= f.minute <= 59 && 0 <= f.second <= 59
    && 0 <= f.millis <= 999
  }

  /** The pieces `getIsoDateNoHours` appends, in order. */
  function DatePieces(f: Fields): seq<string> {
    [IntToString(f.year), "-", TwoDigit(f.month + 1), "-", TwoDigit(f.day)]
  }

  lemma DateLayout(f: Fields)
    ensures var t := Concat(DatePieces(f)); var y := IntToString(f.year);
      y <= t && (0 <= f.month <= 11 && 1 <= f.day <= 31 ==>
        |t| == |y| + 6 && t[|y|] == '-' && t[|y| + 3] == '-')
  {
    var y, mo, d := IntToString(f.year), TwoDigit(f.month + 1), TwoDigit(f.day);
    assert DatePieces(f) == [y] + ["-", mo, "-", d];
    assert ([y] + ["-", mo, "-", d])[1..] == ["-", mo, "-", d];
    ConcatFour("-", mo, "-", d);
    var t := y + ("-" + mo + "-" + d);
    assert Concat(DatePieces(f)) == t;
  }

  lemma NoMillisLayout(f: Fields)
    ensures var t := Concat(NoMillisPieces(f));
      t != [] && t[|t| - 1] == 'Z'
      && (0 <= f.hour < 100 && 0 <= f.minute < 100 && 0 <= f.second < 100 ==>
        |t| == 10 && t[0] == 'T' && t[3] == ':' && t[6] == ':')
  {
    var h, m, sec := TwoDigit(f.hour), TwoDigit(f.minute), TwoDigit(f.second);
    assert NoMillisPieces(f) == ["T", h, ":", m] + [":", sec, "Z"];
    ConcatAppend(["T", h, ":", m], [":", sec, "Z"]);
    ConcatFour("T", h, ":", m);
    ConcatThree(":", sec, "Z");
  }

  lemma MillisLayout(f: Fields)
    ensures var t := Concat(MillisPieces(f));
      t != [] && t[|t| - 1] == 'Z'
      && (0 <= f.hour < 100 && 0 <= f.minute < 100 && 0 <= f.second < 100 && 0 <= f.millis < 1000 ==>
        |t| == 13 && t[0] == 'T' && t[3] == ':' && t[6] == ':' && t[9] == '.')
  {
    var h, m, sec, hs := TwoDigit(f.hour), TwoDigit(f.minute), TwoDigit(f.second), TwoDigit(f.millis / 10);
    assert MillisPieces(f) == ["T", h, ":", m] + [":", sec, ".", hs] + ["Z"];
    ConcatAppend(["T", h, ":", m] + [":", sec, ".", hs], ["Z"]);
    ConcatAppend(["T", h, ":", m], [":", sec, ".", hs]);
    ConcatFour("T", h, ":", m);
    ConcatFour(":", sec, ".", hs);
    assert ["Z"][1..] == [];
  }

  /** `getIsoDateNoHours`: YYYY-MM-DD. With the month and day in range the month and the
      day take two characters each, after a '-'. */
  function IsoDateNoHours(f: Fields): (r: string)
    ensures IntToString(f.year) <= r
    ensures 0 <= f.month <= 11 && 1 <= f.day <= 31 ==>
      var n := |IntToString(f.year)|;
      |r| == n + 6 && r[n] == '-' && r[n + 3] == '-'
  {
    DateLayout(f);
    Concat(DatePieces(f))
  }

  function NoMillisPieces(f: Fields): seq<string> {
    ["T", TwoDigit(f.hour), ":", TwoDigit(f.minute), ":", TwoDigit(f.second), "Z"]
  }

  /** `getIsoDateNoMillis`: YYYY-MM-DDThh:mm:ssZ. The date comes first; with the time
      fields below a hundred the time takes ten characters, 'T', ':' and ':' in their
      places, and the text ends in 'Z'. */
  function IsoDateNoMillis(f: Fields): (r: string)
    ensures IsoDateNoHours(f) <= r && r[|r| - 1] == 'Z'
    ensures 0 <= f.hour < 100 && 0 <= f.minute < 100 && 0 <= f.second < 100 ==>
      var n := |IsoDateNoHours(f)|;
      |r| == n + 10 && r[n] == 'T' && r[n + 3] == ':' && r[n + 6] == ':'
  {
    NoMillisLayout(f);
    IsoDateNoHours(f) + Concat(NoMillisPieces(f))
  }

  /** Hundredths of a second: the milliseconds divided by ten, as `twoDigit` prints them. */
  function MillisPieces(f: Fields): seq<string> {
    ["T", TwoDigit(f.hour), ":", TwoDigit(f.minute), ":", TwoDigit(f.second),
     ".", TwoDigit(f.millis / 10), "Z"]
  }

  /** `getIsoDate`: YYYY-MM-DDThh:mm:ss.hhZ. As `getIsoDateNoMillis`, with '.' and two
      digits of hundredths before the 'Z' when the milliseconds are below a thousand. */
  function IsoDate(f: Fields): (r: string)
    ensures IsoDateNoHours(f) <= r && r[|r| - 1] == 'Z'
    ensures 0 <= f.hour < 100 && 0 <= f.minute < 100 && 0 <= f.second < 100 && 0 <= f.millis < 1000 ==>
      var n := |IsoDateNoHours(f)|;
      |r| == n + 13 && r[n] == 'T' && r[n + 3] == ':' && r[n + 6] == ':' && r[n + 9] == '.'
  {
    MillisLayout(f);
    IsoDateNoHours(f) + Concat(MillisPieces(f))
  }

  // ---------------------------------------------------------------------------------------
  // Properties

  lemma {:induction false} ConcatAppend(a: seq<string>, b: seq<string>)
    ensures Concat(a + b) == Concat(a) + Concat(b)
  {
    if a == [] {
      assert a + b == b;
    } else {
      assert (a + b)[0] == a[0];
      assert (a + b)[1..] == a[1..] + b;
      ConcatAppend(a[1..], b);
    }
  }

  /** The tokenizer drops and adds nothing: its tokens put back together are the input. */
  lemma {:induction false} ConcatTokenize(s: string)
    ensures Concat(Tokenize(s)) == s
    decreases |s|
  {
    if s != [] {
      if IsDelimiter(s[0]) {
        ConcatTokenize(s[1..]);
        assert [s[0]] + s[1..] == s;
      } else {
        var n := RunLength(s);
        ConcatTokenize(s[n..]);
        assert s[..n] + s[n..] == s;
      }
    }
  }

  lemma DigitsValueAppendZero(w: string)
    requires AllDigits(w)
    ensures AllDigits(w + "0") && DigitsValue(w + "0") == 10 * DigitsValue(w)
  {
    assert (w + "0")[..|w|] == w;
  }

  /** Two digits of hundredths read back as a fraction give the milliseconds rounded down
      to a multiple of ten. */
  lemma HundredthsReadBack(ms: int)
    requires 0 <= ms <= 999
    ensures ParseInt(MillisDigits(TwoDigit(ms / 10))) == Some(ms / 10 * 10)
  {
    var w := TwoDigit(ms / 10);
    TwoDigitDigits(ms / 10);
    DigitsValueAppendZero(w);
    ParseIntDigits(w + "0");
    assert MillisDigits(w) == w + "0";
  }

  lemma TwoDigitReadBack(i: int)
    requires 0 <= i <= IntMax
    ensures ParseInt(TwoDigit(i)) == Some(i)
  {
    TwoDigitDigits(i);
    ParseIntDigits(TwoDigit(i));
  }

  lemma SeparableCons(a: string, rest: seq<string>)
    requires IsToken(a) && Separable(rest)
    requires rest == [] || IsDelimiterToken(a) || IsDelimiterToken(rest[0])
    ensures Separable([a] + rest)
  {
    var t := [a] + rest;
    assert forall i :: 1 <= i < |t| ==> t[i] == rest[i - 1];
  }

  lemma SeparableAppend(a: seq<string>, b: seq<string>)
    requires Separable(a) && Separable(b)
    requires a != [] && b != [] && (IsDelimiterToken(a[|a| - 1]) || IsDelimiterToken(b[0]))
    ensures Separable(a + b)
  {
    var ab := a + b;
    forall i | 0 <= i < |ab| - 1
      ensures IsDelimiterToken(ab[i]) || IsDelimiterToken(ab[i + 1])
    {
      if i < |a| - 1 {
        assert ab[i] == a[i] && ab[i + 1] == a[i + 1];
      } else if i == |a| - 1 {
        assert ab[i] == a[|a| - 1] && ab[i + 1] == b[0];
      } else {
        assert ab[i] == b[i - |a|] && ab[i + 1] == b[i - |a| + 1];
      }
    }
  }

  /** The pieces of a time of day with a fraction: words between single delimiters. */
  lemma TimeWithFractionSeparable(h: string, m: string, sec: string, frac: string)
    requires IsWord(h) && IsWord(m) && IsWord(sec) && IsWord(frac)
    ensures Separable(["T", h, ":", m, ":", sec, ".", frac, "Z"])
  {
    var t8 := ["Z"];
    var t7 := [frac] + t8;
    var t6 := ["."] + t7;
    var t5 := [sec] + t6;
    var t4 := [":"] + t5;
    var t3 := [m] + t4;
    var t2 := [":"] + t3;
    var t1 := [h] + t2;
    SeparableCons(frac, t8);
    SeparableCons(".", t7);
    SeparableCons(sec, t6);
    SeparableCons(":", t5);
    SeparableCons(m, t4);
    SeparableCons(":", t3);
    SeparableCons(h, t2);
    SeparableCons("T", t1);
    assert ["T", h, ":", m, ":", sec, ".", frac, "Z"] == ["T"] + t1;
  }

  lemma TimeSeparable(h: string, m: string, sec: string)
    requires IsWord(h) && IsWord(m) && IsWord(sec)
    ensures Separable(["T", h, ":", m, ":", sec, "Z"])
  {
    var t6 := ["Z"];
    var t5 := [sec] + t6;
    var t4 := [":"] + t5;
    var t3 := [m] + t4;
    var t2 := [":"] + t3;
    var t1 := [h] + t2;
    SeparableCons(sec, t6);
    SeparableCons(":", t5);
    SeparableCons(m, t4);
    SeparableCons(":", t3);
    SeparableCons(h, t2);
    SeparableCons("T", t1);
    assert ["T", h, ":", m, ":", sec, "Z"] == ["T"] + t1;
  }

  lemma DateSeparable(y: string, m: string, d: string)
    requires IsWord(y) && IsWord(m) && IsWord(d)
    ensures Separable([y, "-", m, "-", d])
  {
    var t4 := [d];
    var t3 := ["-"] + t4;
    var t2 := [m] + t3;
    var t1 := ["-"] + t2;
    SeparableCons(m, t3);
    SeparableCons("-", t2);
    SeparableCons(y, t1);
    assert [y, "-", m, "-", d] == [y] + t1;
  }

  /** Date and time words between their delimiters tokenize back into those pieces. */
  lemma TokenizeTimeWords(y: string, mo: string, d: string, h: string, mi: string, sec: string)
    requires IsWord(y) && IsWord(mo) && IsWord(d) && IsWord(h) && IsWord(mi) && IsWord(sec)
    ensures Tokenize(Concat([y, "-", mo, "-", d] + ["T", h, ":", mi, ":", sec, "Z"]))
         == [y, "-", mo, "-", d] + ["T", h, ":", mi, ":", sec, "Z"]
  {
    var date := [y, "-", mo, "-", d];
    var time := ["T", h, ":", mi, ":", sec, "Z"];
    DateSeparable(y, mo, d);
    TimeSeparable(h, mi, sec);
    SeparableAppend(date, time);
    TokenizeConcat(date + time);
  }

  lemma TokenizeFractionWords(y: string, mo: string, d: string, h: string, mi: string,
                              sec: string, frac: string)
    requires IsWord(y) && IsWord(mo) && IsWord(d)
    requires IsWord(h) && IsWord(mi) && IsWord(sec) && IsWord(frac)
    ensures Tokenize(Concat([y, "-", mo, "-", d] + ["T", h, ":", mi, ":", sec, ".", frac, "Z"]))
         == [y, "-", mo, "-", d] + ["T", h, ":", mi, ":", sec, ".", frac, "Z"]
  {
    var date := [y, "-", mo, "-", d];
    var time := ["T", h, ":", mi, ":", sec, ".", frac, "Z"];
    DateSeparable(y, mo, d);
    TimeWithFractionSeparable(h, mi, sec, frac);
    SeparableAppend(date, time);
    TokenizeConcat(date + time);
  }

  /** Every number `getIsoDate` prints is a single word of digits. */
  lemma IsoDateWords(f: Fields)
    requires Normalized(f)
    ensures IsWord(IntToString(f.year)) && IsWord(TwoDigit(f.month + 1)) && IsWord(TwoDigit(f.day))
    ensures IsWord(TwoDigit(f.hour)) && IsWord(TwoDigit(f.minute)) && IsWord(TwoDigit(f.second))
    ensures IsWord(TwoDigit(f.millis / 10))
  {
    YearWord(f.year);
    TwoDigitWord(f.month + 1);
    TwoDigitWord(f.day);
    TwoDigitWord(f.hour);
    TwoDigitWord(f.minute);
    TwoDigitWord(f.second);
    TwoDigitWord(f.millis / 10);
  }

  /** The date pieces followed by a time part: the stage reached after the day. */
  /** Reading "YYYY-MM-DD" at the start of the tokens. */
  lemma ReadDate(t: seq<string>, y: int, mo: int, d: int)
    requires |t| >= 5 && t[1] == "-" && t[3] == "-"
    requires ParseInt(t[0]) == Some(y) && ParseInt(t[2]) == Some(mo) && ParseInt(t[4]) == Some(d)
    ensures ParseFields(t)
         == if |t| == 5 then Finished(Ok(Parsed(Cleared.(year := y, month := Dec32(mo), day := d), 0)))
            else FromHour(t, Cleared.(year := y, month := Dec32(mo), day := d))
  {
    assert ParseFields(t) == FromMonth(t, Cleared.(year := y));
    assert FromMonth(t, Cleared.(year := y)) == FromDay(t, Cleared.(year := y, month := Dec32(mo)));
  }

  /** Reading "Thh:mm:ssZ" after a date. */
  lemma ReadTime(t: seq<string>, d: Fields, h: int, m: int, sec: int)
    requires |t| == 12 && t[5] == "T" && t[7] == ":" && t[9] == ":" && t[11] == "Z"
    requires ParseInt(t[6]) == Some(h) && ParseInt(t[8]) == Some(m) && ParseInt(t[10]) == Some(sec)
    ensures FromHour(t, d) == ZoneAt(11, d.(hour := h, minute := m, second := sec, millis := 0))
  {
    assert FromHour(t, d) == FromMinute(t, d.(hour := h));
    assert FromMinute(t, d.(hour := h)) == FromSecond(t, d.(hour := h, minute := m));
  }

  /** Reading "Thh:mm:ss.ffZ" after a date. */
  lemma ReadTimeWithFraction(t: seq<string>, d: Fields, h: int, m: int, sec: int, ms: int)
    requires |t| == 14 && t[5] == "T" && t[7] == ":" && t[9] == ":" && t[11] == "." && t[13] == "Z"
    requires ParseInt(t[6]) == Some(h) && ParseInt(t[8]) == Some(m) && ParseInt(t[10]) == Some(sec)
    requires ParseInt(MillisDigits(t[12])) == Some(ms)
    ensures FromHour(t, d) == ZoneAt(13, d.(hour := h, minute := m, second := sec, millis := ms))
  {
    assert FromHour(t, d) == FromMinute(t, d.(hour := h));
    assert FromMinute(t, d.(hour := h)) == FromSecond(t, d.(hour := h, minute := m));
  }

  /** The three shapes `getIsoDateNoHours`, `getIsoDateNoMillis` and `getIsoDate` print,
      with the numbers they hold. */
  lemma ParseDateShape(t: seq<string>, y: int, mo: int, d: int)
    requires |t| == 5 && t[1] == "-" && t[3] == "-"
    requires ParseInt(t[0]) == Some(y) && ParseInt(t[2]) == Some(mo) && ParseInt(t[4]) == Some(d)
    ensures ParseTokens(t) == Ok(Parsed(Cleared.(year := y, month := Dec32(mo), day := d), 0))
  {
    ReadDate(t, y, mo, d);
  }

  lemma ParseTimeShape(t: seq<string>, y: int, mo: int, d: int, h: int, m: int, sec: int)
    requires |t| == 12 && t[1] == "-" && t[3] == "-"
    requires t[5] == "T" && t[7] == ":" && t[9] == ":" && t[11] == "Z"
    requires ParseInt(t[0]) == Some(y) && ParseInt(t[2]) == Some(mo) && ParseInt(t[4]) == Some(d)
    requires ParseInt(t[6]) == Some(h) && ParseInt(t[8]) == Some(m) && ParseInt(t[10]) == Some(sec)
    ensures ParseTokens(t) == Ok(Parsed(Fields(y, Dec32(mo), d, h, m, sec, 0), 0))
  {
    ReadDate(t, y, mo, d);
    ReadTime(t, Cleared.(year := y, month := Dec32(mo), day := d), h, m, sec);
  }

  lemma ParseFractionShape(t: seq<string>, y: int, mo: int, d: int, h: int, m: int, sec: int, ms: int)
    requires |t| == 14 && t[1] == "-" && t[3] == "-"
    requires t[5] == "T" && t[7] == ":" && t[9] == ":" && t[11] == "." && t[13] == "Z"
    requires ParseInt(t[0]) == Some(y) && ParseInt(t[2]) == Some(mo) && ParseInt(t[4]) == Some(d)
    requires ParseInt(t[6]) == Some(h) && ParseInt(t[8]) == Some(m) && ParseInt(t[10]) == Some(sec)
    requires ParseInt(MillisDigits(t[12])) == Some(ms)
    ensures ParseTokens(t) == Ok(Parsed(Fields(y, Dec32(mo), d, h, m, sec, ms), 0))
  {
    ReadDate(t, y, mo, d);
    ReadTimeWithFraction(t, Cleared.(year := y, month := Dec32(mo), day := d), h, m, sec, ms);
  }

  /** Text made of number words and the delimiters of YYYY-MM-DD parses to the date those
      words spell, at midnight, with no offset added. */
  lemma ParseDateWords(s: string, y: string, mo: string, d: string, g: Fields)
    requires s == Concat([y, "-", mo, "-", d])
    requires IsWord(y) && IsWord(mo) && IsWord(d)
    requires 0 <= g.month
    requires ParseInt(y) == Some(g.year) && ParseInt(mo) == Some(g.month + 1)
    requires ParseInt(d) == Some(g.day)
    ensures Parse(s) == Ok(Parsed(Cleared.(year := g.year, month := g.month, day := g.day), 0))
  {
    DateSeparable(y, mo, d);
    TokenizeConcat([y, "-", mo, "-", d]);
    ParseDateShape([y, "-", mo, "-", d], g.year, g.month + 1, g.day);
  }

  /** Text made of number words and the delimiters of YYYY-MM-DDThh:mm:ssZ parses to
      the fields those words spell, with no offset added. */
  lemma ParseTimeWords(s: string, y: string, mo: string, d: string, h: string, mi: string,
                       sec: string, g: Fields)
    requires s == Concat([y, "-", mo, "-", d] + ["T", h, ":", mi, ":", sec, "Z"])
    requires IsWord(y) && IsWord(mo) && IsWord(d) && IsWord(h) && IsWord(mi) && IsWord(sec)
    requires 0 <= g.month && g.millis == 0
    requires ParseInt(y) == Some(g.year) && ParseInt(mo) == Some(g.month + 1)
    requires ParseInt(d) == Some(g.day) && ParseInt(h) == Some(g.hour)
    requires ParseInt(mi) == Some(g.minute) && ParseInt(sec) == Some(g.second)
    ensures Parse(s) == Ok(Parsed(g, 0))
  {
    TokenizeTimeWords(y, mo, d, h, mi, sec);
    var t := [y, "-", mo, "-", d] + ["T", h, ":", mi, ":", sec, "Z"];
    ParseTimeShape(t, g.year, g.month + 1, g.day, g.hour, g.minute, g.second);
  }

  /** The same for YYYY-MM-DDThh:mm:ss.fZ, the fraction read as milliseconds. */
  lemma ParseFractionWords(s: string, y: string, mo: string, d: string, h: string, mi: string,
                           sec: string, frac: string, g: Fields)
    requires s == Concat([y, "-", mo, "-", d] + ["T", h, ":", mi, ":", sec, ".", frac, "Z"])
    requires IsWord(y) && IsWord(mo) && IsWord(d)
    requires IsWord(h) && IsWord(mi) && IsWord(sec) && IsWord(frac)
    requires 0 <= g.month
    requires ParseInt(y) == Some(g.year) && ParseInt(mo) == Some(g.month + 1)
    requires ParseInt(d) == Some(g.day) && ParseInt(h) == Some(g.hour)
    requires ParseInt(mi) == Some(g.minute) && ParseInt(sec) == Some(g.second)
    requires ParseInt(MillisDigits(frac)) == Some(g.millis)
    ensures Parse(s) == Ok(Parsed(g, 0))
  {
    TokenizeFractionWords(y, mo, d, h, mi, sec, frac);
    var t := [y, "-", mo, "-", d] + ["T", h, ":", mi, ":", sec, ".", frac, "Z"];
    ParseFractionShape(t, g.year, g.month + 1, g.day, g.hour, g.minute, g.second, g.millis);
  }

  /** Every number `getIsoDate` prints reads back as the field it came from. */
  lemma IsoDateNumbers(f: Fields)
    requires Normalized(f)
    ensures ParseInt(IntToString(f.year)) == Some(f.year)
    ensures ParseInt(TwoDigit(f.month + 1)) == Some(f.month + 1) && Dec32(f.month + 1) == f.month
    ensures ParseInt(TwoDigit(f.day)) == Some(f.day) && ParseInt(TwoDigit(f.hour)) == Some(f.hour)
    ensures ParseInt(TwoDigit(f.minute)) == Some(f.minute)
    ensures ParseInt(TwoDigit(f.second)) == Some(f.second)
    ensures ParseInt(MillisDigits(TwoDigit(f.millis / 10))) == Some(f.millis / 10 * 10)
  {
    ParseIntToString(f.year);
    TwoDigitReadBack(f.month + 1);
    TwoDigitReadBack(f.day);
    TwoDigitReadBack(f.hour);
    TwoDigitReadBack(f.minute);
    TwoDigitReadBack(f.second);
    HundredthsReadBack(f.millis);
  }

  /** The pieces `getIsoDateNoHours` appends, put together, parse back to the date. */
  lemma DatePiecesParse(s: string, f: Fields)
    requires Normalized(f)
    requires s == Concat(DatePieces(f))
    ensures Parse(s) == Ok(Parsed(Cleared.(year := f.year, month := f.month, day := f.day), 0))
  {
    YearWord(f.year);
    ParseIntToString(f.year);
    TwoDigitWord(f.month + 1);
    TwoDigitReadBack(f.month + 1);
    TwoDigitWord(f.day);
    TwoDigitReadBack(f.day);
    ParseDateWords(s, IntToString(f.year), TwoDigit(f.month + 1), TwoDigit(f.day), f);
  }

  /** `parse(getIsoDateNoHours(d))` recovers the date and zeroes the time of day. */
  lemma IsoDateNoHoursRoundTrip(f: Fields)
    requires Normalized(f)
    ensures Parse(IsoDateNoHours(f))
         == Ok(Parsed(Cleared.(year := f.year, month := f.month, day := f.day), 0))
  {
    DatePiecesParse(IsoDateNoHours(f), f);
  }

  /** The pieces `getIsoDateNoMillis` appends, put together, parse back to the fields. */
  lemma NoMillisPiecesParse(s: string, f: Fields)
    requires Normalized(f)
    requires s == Concat(DatePieces(f) + NoMillisPieces(f))
    ensures Parse(s) == Ok(Parsed(f.(millis := 0), 0))
  {
    IsoDateWords(f);
    IsoDateNumbers(f);
    ParseTimeWords(s, IntToString(f.year), TwoDigit(f.month + 1), TwoDigit(f.day),
                   TwoDigit(f.hour), TwoDigit(f.minute), TwoDigit(f.second), f.(millis := 0));
  }

  /** The pieces `getIsoDate` appends, put together, parse back to the fields with the
      milliseconds cut to hundredths. */
  lemma MillisPiecesParse(s: string, f: Fields)
    requires Normalized(f)
    requires s == Concat(DatePieces(f) + MillisPieces(f))
    ensures Parse(s) == Ok(Parsed(f.(millis := f.millis / 10 * 10), 0))
  {
    IsoDateWords(f);
    IsoDateNumbers(f);
    ParseFractionWords(s, IntToString(f.year), TwoDigit(f.month + 1), TwoDigit(f.day),
                       TwoDigit(f.hour), TwoDigit(f.minute), TwoDigit(f.second), TwoDigit(f.millis / 10),
                       f.(millis := f.millis / 10 * 10));
  }

  /** `parse(getIsoDateNoMillis(d))` recovers every field down to the second. */
  lemma IsoDateNoMillisRoundTrip(f: Fields)
    requires Normalized(f)
    ensures Parse(IsoDateNoMillis(f)) == Ok(Parsed(f.(millis := 0), 0))
  {
    ConcatAppend(DatePieces(f), NoMillisPieces(f));
    NoMillisPiecesParse(IsoDateNoMillis(f), f);
  }

  /** `parse(getIsoDate(d))` recovers every field, the milliseconds to the hundredth. */
  lemma IsoDateRoundTrip(f: Fields)
    requires Normalized(f)
    ensures Parse(IsoDate(f)) == Ok(Parsed(f.(millis := f.millis / 10 * 10), 0))
  {
    ConcatAppend(DatePieces(f), MillisPieces(f));
    MillisPiecesParse(IsoDate(f), f);
  }

  /** Whatever follows the '.', the fraction read is a millisecond count 0..999. */
  lemma MillisDigitsRange(nt: string)
    requires IsToken(nt)
    ensures ParseInt(MillisDigits(nt)).Some? ==> 0 <= ParseInt(MillisDigits(nt)).value <= 999
  {
    var d := MillisDigits(nt);
    if ParseInt(d).Some? {
      if d[0] == '-' || d[0] == '+' {
        assert nt[0] == d[0];
        assert nt == [d[0]];
        assert d == [d[0]] + "00";
        DigitsValueAppendZero("");
        assert "" + "0" == "0";
        DigitsValueAppendZero("0");
        assert "0" + "0" == "00";
        ParseIntSigned(d[0], "00");
      } else {
        ReadDigitsValue(d);
        ParseIntDigits(d);
        DigitsValueBound(d);
      }
    }
  }

  /** The milliseconds a stage carries, when it carries any, are in 0..999. */
  predicate MillisInRange(st: Stage) {
    match st
    case Finished(r) => r.Ok? ==> 0 <= r.value.fields.millis <= 999
    case ZoneAt(_, f) => 0 <= f.millis <= 999
  }

  lemma FromSecondMillis(t: seq<string>, f: Fields)
    requires |t| >= 9 && 0 <= f.millis <= 999
    requires |t| > 12 ==> IsToken(t[12])
    ensures MillisInRange(FromSecond(t, f))
  {
    if |t| > 12 {
      MillisDigitsRange(t[12]);
    }
  }

  lemma FromMinuteMillis(t: seq<string>, f: Fields)
    requires |t| >= 7 && 0 <= f.millis <= 999
    requires |t| > 12 ==> IsToken(t[12])
    ensures MillisInRange(FromMinute(t, f))
  {
    if Field(t, 7, ":").Present? {
      FromSecondMillis(t, f.(minute := Field(t, 7, ":").value));
    }
  }

  lemma FromHourMillis(t: seq<string>, f: Fields)
    requires |t| >= 5 && 0 <= f.millis <= 999
    requires |t| > 12 ==> IsToken(t[12])
    ensures MillisInRange(FromHour(t, f))
  {
    if Field(t, 5, "T").Present? {
      FromMinuteMillis(t, f.(hour := Field(t, 5, "T").value));
    }
  }

  lemma FromDayMillis(t: seq<string>, f: Fields)
    requires |t| >= 3 && 0 <= f.millis <= 999
    requires |t| > 12 ==> IsToken(t[12])
    ensures MillisInRange(FromDay(t, f))
  {
    if Field(t, 3, "-").Present? {
      FromHourMillis(t, f.(day := Field(t, 3, "-").value));
    }
  }

  lemma FromMonthMillis(t: seq<string>, f: Fields)
    requires |t| >= 1 && 0 <= f.millis <= 999
    requires |t| > 12 ==> IsToken(t[12])
    ensures MillisInRange(FromMonth(t, f))
  {
    if Field(t, 1, "-").Present? {
      FromDayMillis(t, f.(month := Dec32(Field(t, 1, "-").value)));
    }
  }

  /** A successful parse always yields milliseconds in 0..999. */
  lemma ParsedMillisRange(s: string)
    ensures Parse(s).Ok? ==> 0 <= Parse(s).value.fields.millis <= 999
  {
    var t := Tokenize(s);
    if |t| > 0 && ParseInt(t[0]).Some? {
      FromMonthMillis(t, Cleared.(year := ParseInt(t[0]).value));
    }
  }

  /** The fields phase stops at a zone designator only right after the minutes, the
      seconds or the fraction. */
  lemma ZoneIndex(t: seq<string>)
    ensures ParseFields(t).ZoneAt? ==> ParseFields(t).index in {9, 11, 13}
  {
  }

  /** Two token lists that share their first `n` tokens, where the second has at `n` a token
      that neither the seconds nor the fraction reader would take. */
  predicate AgreeBefore(t1: seq<string>, t2: seq<string>, n: nat) {
    && 9 <= n < |t1| && n < |t2|
    && (forall k :: 0 <= k < n ==> t1[k] == t2[k])
    && t2[n] != ":" && t2[n] != "."
  }

  lemma FromSecondAgree(t1: seq<string>, t2: seq<string>, f: Fields, n: nat, g: Fields)
    requires AgreeBefore(t1, t2, n) && FromSecond(t1, f) == ZoneAt(n, g)
    ensures FromSecond(t2, f) == ZoneAt(n, g)
  {
  }

  lemma FromMinuteAgree(t1: seq<string>, t2: seq<string>, f: Fields, n: nat, g: Fields)
    requires AgreeBefore(t1, t2, n) && FromMinute(t1, f) == ZoneAt(n, g)
    ensures FromMinute(t2, f) == ZoneAt(n, g)
  {
    assert t1[7] == t2[7] && t1[8] == t2[8];
    FromSecondAgree(t1, t2, f.(minute := Field(t1, 7, ":").value), n, g);
  }

  lemma FromHourAgree(t1: seq<string>, t2: seq<string>, f: Fields, n: nat, g: Fields)
    requires AgreeBefore(t1, t2, n) && FromHour(t1, f) == ZoneAt(n, g)
    ensures FromHour(t2, f) == ZoneAt(n, g)
  {
    assert t1[5] == t2[5] && t1[6] == t2[6];
    FromMinuteAgree(t1, t2, f.(hour := Field(t1, 5, "T").value), n, g);
  }

  lemma FromDayAgree(t1: seq<string>, t2: seq<string>, f: Fields, n: nat, g: Fields)
    requires AgreeBefore(t1, t2, n) && FromDay(t1, f) == ZoneAt(n, g)
    ensures FromDay(t2, f) == ZoneAt(n, g)
  {
    assert t1[3] == t2[3] && t1[4] == t2[4];
    FromHourAgree(t1, t2, f.(day := Field(t1, 3, "-").value), n, g);
  }

  lemma FromMonthAgree(t1: seq<string>, t2: seq<string>, f: Fields, n: nat, g: Fields)
    requires AgreeBefore(t1, t2, n) && FromMonth(t1, f) == ZoneAt(n, g)
    ensures FromMonth(t2, f) == ZoneAt(n, g)
  {
    assert t1[1] == t2[1] && t1[2] == t2[2];
    FromDayAgree(t1, t2, f.(month := Dec32(Field(t1, 1, "-").value)), n, g);
  }

  /** The fields read before the zone designator do not depend on what follows it. */
  lemma ParseFieldsAgree(t1: seq<string>, t2: seq<string>, n: nat, g: Fields)
    requires AgreeBefore(t1, t2, n) && ParseFields(t1) == ZoneAt(n, g)
    ensures ParseFields(t2) == ZoneAt(n, g)
  {
    assert t1[0] == t2[0];
    FromMonthAgree(t1, t2, Cleared.(year := ParseInt(t1[0]).value), n, g);
  }

  /** The fields read before the zone designator do not depend on which designator follows. */
  lemma FieldsBeforeZone(p: seq<string>, z1: seq<string>, z2: seq<string>, f: Fields)
    requires ParseFields(p + z1) == ZoneAt(|p|, f)
    requires z1 != [] && z1[0] in {"Z", "+", "-"}
    requires z2 != [] && z2[0] in {"Z", "+", "-"}
    ensures ParseFields(p + z2) == ZoneAt(|p|, f)
  {
    ZoneIndex(p + z1);
    assert (p + z2)[|p|] == z2[0];
    assert forall k :: 0 <= k < |p| ==> (p + z1)[k] == (p + z2)[k];
    ParseFieldsAgree(p + z1, p + z2, |p|, f);
  }

  /** What follows the fields decides the result alone once a designator is reached. */
  lemma ZoneRead(p: seq<string>, z: seq<string>, f: Fields)
    requires ParseFields(p + ["Z"]) == ZoneAt(|p|, f)
    requires z != [] && z[0] in {"Z", "+", "-"}
    ensures ParseTokens(p + z) == ParseZone(p + z, |p|, f)
  {
    FieldsBeforeZone(p, ["Z"], z, f);
  }

  /** Where a zone designator is read, "Z" keeps the fields as they are. */
  lemma ZoneUtc(p: seq<string>, f: Fields)
    requires ParseFields(p + ["Z"]) == ZoneAt(|p|, f)
    ensures ParseTokens(p + ["Z"]) == Ok(Parsed(f, 0))
  {
    ZoneRead(p, ["Z"], f);
  }

  /** Where a zone designator is read, "+hh:mm" adds hh hours and mm minutes. */
  lemma ZoneAhead(p: seq<string>, f: Fields, hh: string, mm: string)
    requires ParseFields(p + ["Z"]) == ZoneAt(|p|, f)
    requires ParseInt(hh).Some? && ParseInt(mm).Some?
    ensures ParseTokens(p + ["+", hh, ":", mm])
         == Ok(Parsed(f, ParseInt(hh).value * 60 + ParseInt(mm).value))
  {
    var t := p + ["+", hh, ":", mm];
    ZoneRead(p, ["+", hh, ":", mm], f);
    assert t[|p|] == "+" && t[|p| + 1] == hh && t[|p| + 2] == ":" && t[|p| + 3] == mm;
    SignedOffset(t, |p|, f);
  }

  /** Where a zone designator is read, "-hh:mm" adds the negations of hh hours and
      mm minutes (negated in Java `int`). */
  lemma ZoneBehind(p: seq<string>, f: Fields, hh: string, mm: string)
    requires ParseFields(p + ["Z"]) == ZoneAt(|p|, f)
    requires ParseInt(hh).Some? && ParseInt(mm).Some?
    ensures ParseTokens(p + ["-", hh, ":", mm])
         == Ok(Parsed(f, Neg32(ParseInt(hh).value) * 60 + Neg32(ParseInt(mm).value)))
  {
    var t := p + ["-", hh, ":", mm];
    ZoneRead(p, ["-", hh, ":", mm], f);
    assert t[|p|] == "-" && t[|p| + 1] == hh && t[|p| + 2] == ":" && t[|p| + 3] == mm;
    SignedOffset(t, |p|, f);
  }

  lemma SignedOffset(t: seq<string>, i: nat, f: Fields)
    requires i + 4 == |t| && (t[i] == "+" || t[i] == "-") && t[i + 2] == ":"
    requires ParseInt(t[i + 1]).Some? && ParseInt(t[i + 3]).Some?
    ensures ParseZone(t, i, f)
         == Ok(Parsed(f, if t[i] == "+" then ParseInt(t[i + 1]).value * 60 + ParseInt(t[i + 3]).value
                         else Neg32(ParseInt(t[i + 1]).value) * 60 + Neg32(ParseInt(t[i + 3]).value)))
  {
  }

  /** An offset cut short is refused: no hour, or no minutes after the hour. */
  lemma ZoneIncomplete(p: seq<string>, f: Fields, hh: string)
    requires ParseFields(p + ["Z"]) == ZoneAt(|p|, f)
    requires ParseInt(hh).Some?
    ensures ParseTokens(p + ["+"]) == Err(InvalidDate("Missing hour field"))
    ensures ParseTokens(p + ["+", hh]) == Err(InvalidDate("Missing minute field"))
    ensures ParseTokens(p + ["+", hh, ":"]) == Err(InvalidDate("Missing minute field"))
  {
    ZoneRead(p, ["+"], f);
    ZoneRead(p, ["+", hh], f);
    assert (p + ["+", hh])[|p| + 1] == hh;
    ZoneRead(p, ["+", hh, ":"], f);
    assert (p + ["+", hh, ":"])[|p| + 1] == hh && (p + ["+", hh, ":"])[|p| + 2] == ":";
  }

  /** Shorter inputs are accepted and stop after their last field: "YYYY", "YYYY-MM",
      "YYYY-MM-DD", "...Thh" and "...Thh:mm", the fields not given left as a cleared
      calendar has them (all time fields zero). */
  lemma PrefixForms(y: string, mo: string, d: string, h: string, mi: string)
    requires ParseInt(y).Some? && ParseInt(mo).Some? && ParseInt(d).Some?
    requires ParseInt(h).Some? && ParseInt(mi).Some?
    ensures var f := Cleared.(year := ParseInt(y).value);
      ParseTokens([y]) == Ok(Parsed(f, 0))
    ensures var f := Cleared.(year := ParseInt(y).value, month := Dec32(ParseInt(mo).value));
      ParseTokens([y, "-", mo]) == Ok(Parsed(f, 0))
    ensures var f := Cleared.(year := ParseInt(y).value, month := Dec32(ParseInt(mo).value), day := ParseInt(d).value);
      ParseTokens([y, "-", mo, "-", d]) == Ok(Parsed(f, 0))
    ensures var f := Cleared.(year := ParseInt(y).value, month := Dec32(ParseInt(mo).value), day := ParseInt(d).value,
                              hour := ParseInt(h).value);
      ParseTokens([y, "-", mo, "-", d, "T", h]) == Ok(Parsed(f, 0))
    ensures var f := Cleared.(year := ParseInt(y).value, month := Dec32(ParseInt(mo).value), day := ParseInt(d).value,
                              hour := ParseInt(h).value, minute := ParseInt(mi).value);
      ParseTokens([y, "-", mo, "-", d, "T", h, ":", mi]) == Ok(Parsed(f, 0))
  {
  }

  /** The errors after the minutes: ':' with no seconds is refused, and a '.' with nothing
      after it lets NoSuchElementException escape. */
  lemma SecondsErrors(y: string, mo: string, d: string, h: string, mi: string, sec: string)
    requires ParseInt(y).Some? && ParseInt(mo).Some? && ParseInt(d).Some?
    requires ParseInt(h).Some? && ParseInt(mi).Some? && ParseInt(sec).Some?
    ensures ParseTokens([y, "-", mo, "-", d, "T", h, ":", mi, ":"]) == Err(InvalidDate("No secondes specified"))
    ensures ParseTokens([y, "-", mo, "-", d, "T", h, ":", mi, ":", sec, "."]) == Err(NoSuchElement)
  {
  }

  lemma TrailingDotSeparable(h: string, m: string, sec: string)
    requires IsWord(h) && IsWord(m) && IsWord(sec)
    ensures Separable(["T", h, ":", m, ":", sec, "."])
  {
    var t6 := ["."];
    var t5 := [sec] + t6;
    var t4 := [":"] + t5;
    var t3 := [m] + t4;
    var t2 := [":"] + t3;
    var t1 := [h] + t2;
    SeparableCons(sec, t6);
    SeparableCons(":", t5);
    SeparableCons(m, t4);
    SeparableCons(":", t3);
    SeparableCons(h, t2);
    SeparableCons("T", t1);
    assert ["T", h, ":", m, ":", sec, "."] == ["T"] + t1;
  }

  /** The text of a date cut off right after the '.' of its fraction: the parse lets
      NoSuchElementException escape. */
  lemma ParseBareDotWords(s: string, y: string, mo: string, d: string, h: string, mi: string, sec: string)
    requires s == Concat([y, "-", mo, "-", d] + ["T", h, ":", mi, ":", sec, "."])
    requires IsWord(y) && IsWord(mo) && IsWord(d) && IsWord(h) && IsWord(mi) && IsWord(sec)
    requires ParseInt(y).Some? && ParseInt(mo).Some? && ParseInt(d).Some?
    requires ParseInt(h).Some? && ParseInt(mi).Some? && ParseInt(sec).Some?
    ensures Parse(s) == Err(NoSuchElement)
  {
    var date := [y, "-", mo, "-", d];
    var time := ["T", h, ":", mi, ":", sec, "."];
    DateSeparable(y, mo, d);
    TrailingDotSeparable(h, mi, sec);
    SeparableAppend(date, time);
    TokenizeConcat(date + time);
    SecondsErrors(y, mo, d, h, mi, sec);
    assert date + time == [y, "-", mo, "-", d, "T", h, ":", mi, ":", sec, "."];
  }

  /** A field that is not an integer ends the parse with the NumberFormatException's message. */
  lemma NotAnIntegerYear(y: string, rest: seq<string>)
    requires ParseInt(y).None?
    ensures ParseTokens([y] + rest) == Err(NotAnInteger(y))
  {
  }

  /** A separator other than the expected one is reported as missing. */
  lemma WrongSeparator(y: string, sep: string, rest: seq<string>)
    requires ParseInt(y).Some? && sep != "-"
    ensures ParseTokens([y, sep] + rest) == Err(Missing("-"))
  {
  }
}
