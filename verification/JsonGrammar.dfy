/** The grammar of RFC 8259 as a reader that only says where a value ends, and which of the
    texts written are legal by it.  Octets above 0x7F count as characters. */
module JsonGrammar {
  import opened Wrappers
  import opened Json

  // ---- White space and literals, sections 2 and 3 ----

  predicate IsSpace(c: char) {
    c == ' ' || c == '\t' || c == '\n' || c == '\r'
  }

  function SkipSpace(s: string): (r: string)
    ensures |r| <= |s|
    ensures s == "" || !IsSpace(s[0]) ==> r == s
  {
    if s != "" && IsSpace(s[0]) then SkipSpace(s[1..]) else s
  }

  function Literal(name: string, s: string): (r: Option<string>) {
    if name <= s then Some(s[|name|..]) else None
  }

  // ---- Numbers, section 6 ----

  predicate IsDigit(c: char) {
    '0' <= c <= '9'
  }

  function SkipDigits(s: string): (r: string)
    ensures |r| <= |s|
  {
    if s != "" && IsDigit(s[0]) then SkipDigits(s[1..]) else s
  }

  /** At least one digit. */
  function SomeDigits(s: string): (r: Option<string>)
    ensures r.Some? ==> |r.value| < |s|
  {
    if s != "" && IsDigit(s[0]) then Some(SkipDigits(s[1..])) else None
  }

  /** No zero in front of other digits. */
  function WholeNumber(s: string): (r: Option<string>)
    ensures r.Some? ==> |r.value| < |s|
  {
    if s != "" && s[0] == '0' then Some(s[1..]) else SomeDigits(s)
  }

  function Fraction(s: string): (r: Option<string>)
    ensures r.Some? ==> |r.value| <= |s|
  {
    if s != "" && s[0] == '.' then SomeDigits(s[1..]) else Some(s)
  }

  function Exponent(s: string): (r: Option<string>)
    ensures r.Some? ==> |r.value| <= |s|
  {
    if s == "" || (s[0] != 'e' && s[0] != 'E') then Some(s)
    else if |s| >= 2 && (s[1] == '+' || s[1] == '-') then SomeDigits(s[2..])
    else SomeDigits(s[1..])
  }

  function Number(s: string): (r: Option<string>)
    ensures r.Some? ==> |r.value| < |s|
  {
    var whole := WholeNumber(if s != "" && s[0] == '-' then s[1..] else s);
    if whole.None? then None
    else
      var fraction := Fraction(whole.value);
      if fraction.None? then None else Exponent(fraction.value)
  }

  // ---- Strings, section 7 ----

  predicate IsHex(c: char) {
    '0' <= c <= '9' || 'a' <= c <= 'f' || 'A' <= c <= 'F'
  }

  /** The rest of a string, from behind its opening quote. */
  function Characters(s: string): (r: Option<string>)
    ensures r.Some? ==> |r.value| < |s|
  {
    if s == "" then None
    else if s[0] == '\"' then Some(s[1..])
    else if s[0] == '\\' then
      if |s| >= 2 && s[1] in {'\"', '\\', '/', 'b', 'f', 'n', 'r', 't'} then Characters(s[2..])
      else if |s| >= 6 && s[1] == 'u' && forall i :: 2 <= i < 6 ==> IsHex(s[i]) then Characters(s[6..])
      else None
    else if s[0] < ' ' then None
    else Characters(s[1..])
  }

  // ---- Values, sections 3 to 5 ----

  function Value(s: string): (r: Option<string>)
    ensures r.Some? ==> |r.value| < |s|
    decreases |s|, 0
  {
    var t := SkipSpace(s);
    if t == "" then None
    else match t[0]
         case '{' => Members(true, t[1..])
         case '[' => Elements(true, t[1..])
         case '\"' => Characters(t[1..])
         case 't' => Literal("true", t)
         case 'f' => Literal("false", t)
         case 'n' => Literal("null", t)
         case _ => Number(t)
  }

  /** Behind the bracket when `first`, else behind an element. */
  function Elements(first: bool, s: string): (r: Option<string>)
    ensures r.Some? ==> |r.value| < |s|
    decreases |s|, 1
  {
    var t := SkipSpace(s);
    if t == "" then None
    else if t[0] == ']' then Some(t[1..])
    else if !first && t[0] != ',' then None
    else
      var v := Value(if first then t else t[1..]);
      if v.Some? then Elements(false, v.value) else None
  }

  /** The name of a member and the colon. */
  function Name(s: string): (r: Option<string>)
    ensures r.Some? ==> |r.value| < |s|
  {
    var t := SkipSpace(s);
    if t == "" || t[0] != '\"' then None
    else
      var k := Characters(t[1..]);
      if k.None? then None
      else
        var c := SkipSpace(k.value);
        if c != "" && c[0] == ':' then Some(c[1..]) else None
  }

  function Members(first: bool, s: string): (r: Option<string>)
    ensures r.Some? ==> |r.value| < |s|
    decreases |s|, 1
  {
    var t := SkipSpace(s);
    if t == "" then None
    else if t[0] == '}' then Some(t[1..])
    else if !first && t[0] != ',' then None
    else
      var k := Name(if first then t else t[1..]);
      if k.None? then None
      else
        var v := Value(k.value);
        if v.Some? then Members(false, v.value) else None
  }

  /** One value, with nothing but white space around it. */
  predicate LegalText(s: string) {
    var r := Value(s);
    r.Some? && SkipSpace(r.value) == ""
  }

  // ---- What is written ----

  predicate NoOtherControl(s: string) {
    forall i :: 0 <= i < |s| ==> s[i] >= ' ' || s[i] == '\n' || s[i] == '\r'
  }

  lemma QuoteEnds(rest: string)
    ensures Characters("\"" + rest) == Some(rest)
  {
    assert ("\"" + rest)[1..] == rest;
  }

  lemma OneCharacter(c: char, t: string)
    ensures Characters(EscapeChar(c) + t) == if c >= ' ' || c == '\n' || c == '\r' then Characters(t) else None
  {
    assert (EscapeChar(c) + t)[|EscapeChar(c)|..] == t;
  }

  /** An escaped text between quotes is legal exactly when it has no control characters but LF
      and CR. */
  lemma {:induction false} EscapedIsLegalIff(s: string, rest: string)
    ensures Characters(Escape(s) + ("\"" + rest)) == if NoOtherControl(s) then Some(rest) else None
  {
    if s == "" {
      QuoteEnds(rest);
      assert Escape(s) + ("\"" + rest) == "\"" + rest;
    } else {
      EscapeFront(s, "\"" + rest);
      EscapedIsLegalIff(s[1..], rest);
      OneCharacter(s[0], Escape(s[1..]) + ("\"" + rest));
      assert s == [s[0]] + s[1..];
    }
  }

  /** A name that is written as it is. */
  predicate BareKey(key: string) {
    forall i :: 0 <= i < |key| ==> key[i] >= ' ' && key[i] != '\"' && key[i] != '\\'
  }

  predicate Bare(j: Json) {
    match j
    case List(items) => BareItems(items)
    case Object(fields) => BareFields(fields)
    case _ => true
  }

  predicate BareItems(items: Items) {
    items == NoItems || (BareItems(items.front) && Bare(items.last))
  }

  predicate BareFields(fields: Fields) {
    fields == NoFields || (BareFields(fields.front) && BareKey(fields.key) && Bare(fields.value))
  }

  /** No text in the value has a control character but LF and CR. */
  predicate Clean(j: Json) {
    match j
    case Str(s) => NoOtherControl(s)
    case List(items) => CleanItems(items)
    case Object(fields) => CleanFields(fields)
    case _ => true
  }

  predicate CleanItems(items: Items) {
    items == NoItems || (CleanItems(items.front) && Clean(items.last))
  }

  predicate CleanFields(fields: Fields) {
    fields == NoFields || (CleanFields(fields.front) && Clean(fields.value))
  }

  // ---- Numbers written ----

  /** What follows a value in the texts written. */
  predicate Follows(rest: string) {
    rest == "" || rest[0] in {',', ']', '}'}
  }

  lemma {:induction false} DigitsSkipped(t: string, rest: string)
    requires Follows(rest) && forall i :: 0 <= i < |t| ==> IsDigit(t[i])
    ensures SkipDigits(t + rest) == rest
  {
    if t == "" {
      assert t + rest == rest;
    } else {
      DigitsSkipped(t[1..], rest);
      assert (t + rest)[1..] == t[1..] + rest;
    }
  }

  /** Only zero starts with a zero. */
  lemma {:induction false} NoLeadingZero(n: nat)
    requires n > 0
    ensures Digits(n)[0] != '0'
  {
    if n >= 10 {
      NoLeadingZero(n / 10);
    }
  }

  lemma DigitsAreWhole(n: nat, rest: string)
    requires Follows(rest)
    ensures WholeNumber(Digits(n) + rest) == Some(rest)
  {
    var t := Digits(n);
    assert (t + rest)[1..] == t[1..] + rest;
    if n == 0 {
      assert t[1..] + rest == rest;
    } else {
      NoLeadingZero(n);
      DigitsSkipped(t[1..], rest);
    }
  }

  lemma WholeIsNumber(s: string, rest: string)
    requires Follows(rest) && WholeNumber(if s != "" && s[0] == '-' then s[1..] else s) == Some(rest)
    ensures Number(s) == Some(rest)
  {
  }

  lemma NumberIsValue(s: string)
    requires s != "" && IsNumeric(s[0])
    ensures Value(s) == Number(s)
  {
    assert !IsSpace(s[0]) && SkipSpace(s) == s;
    assert s[0] !in {'{', '[', '\"', 't', 'f', 'n'};
  }

  lemma DigitsAreLegal(n: nat, rest: string)
    requires Follows(rest)
    ensures Value(Digits(n) + rest) == Some(rest)
  {
    var s := Digits(n) + rest;
    DigitsAreWhole(n, rest);
    assert IsDigit(s[0]);
    WholeIsNumber(s, rest);
    NumberIsValue(s);
  }

  lemma NegativeIsLegal(n: nat, rest: string)
    requires Follows(rest)
    ensures Value("-" + (Digits(n) + rest)) == Some(rest)
  {
    var digits := Digits(n) + rest;
    var s := "-" + digits;
    DigitsAreWhole(n, rest);
    assert s[0] == '-' && s[1..] == digits;
    WholeIsNumber(s, rest);
    NumberIsValue(s);
  }

  lemma DecimalIsLegal(n: int, rest: string)
    requires Follows(rest)
    ensures Value(Decimal(n) + rest) == Some(rest)
  {
    if n < 0 {
      NegativeIsLegal(-n, rest);
      assert Decimal(n) + rest == "-" + (Digits(-n) + rest);
    } else {
      DigitsAreLegal(n, rest);
    }
  }

  // ---- Values written ----

  lemma FlagIsLegal(b: bool, rest: string)
    ensures Value(Ser(Flag(b)) + rest) == Some(rest)
  {
    var s := Ser(Flag(b)) + rest;
    assert s[|Ser(Flag(b))|..] == rest;
    assert b ==> s[0] == 't' && "true" <= s;
    assert !b ==> s[0] == 'f' && "false" <= s;
  }

  lemma TextIsLegalIff(t: string, rest: string)
    ensures Value(Quoted(t) + rest) == if NoOtherControl(t) then Some(rest) else None
  {
    var s := Escape(t) + ("\"" + rest);
    EscapedIsLegalIff(t, rest);
    assert Quoted(t) + rest == "\"" + s;
    assert ("\"" + s)[1..] == s;
  }

  lemma OpenBrackets(s: string)
    ensures Value("[" + s) == Elements(true, s) && Value("{" + s) == Members(true, s)
  {
    assert ("[" + s)[1..] == s && ("{" + s)[1..] == s;
  }

  lemma CloseBrackets(first: bool, rest: string)
    ensures Elements(first, "]" + rest) == Some(rest) && Members(first, "}" + rest) == Some(rest)
  {
    assert ("]" + rest)[1..] == rest && ("}" + rest)[1..] == rest;
  }

  lemma StartsBlack(j: Json)
    ensures Ser(j)[0] != ']' && !IsSpace(Ser(j)[0])
  {
  }

  lemma OneElement(first: bool, value: string)
    requires value != "" && value[0] != ']' && !IsSpace(value[0])
    ensures Elements(first, Comma(!first) + value) ==
            if Value(value).Some? then Elements(false, Value(value).value) else None
  {
    assert ("," + value)[1..] == value && "" + value == value;
  }

  /** The text of a value is legal exactly when no text in it has a control character but LF
      and CR; if it is, the value ends where it was written to. */
  lemma {:induction false} SerIsLegalIff(j: Json, rest: string)
    requires Bare(j) && Follows(rest)
    ensures Value(Ser(j) + rest) == if Clean(j) then Some(rest) else None
    decreases j, 0
  {
    match j
    case Flag(b) => FlagIsLegal(b, rest);
    case Num(n) => DecimalIsLegal(n, rest);
    case Str(t) => TextIsLegalIff(t, rest);
    case List(items) =>
      SerBrackets(items, NoFields, rest);
      OpenBrackets(SerItems(items) + ("]" + rest));
      ItemsAreLegalIff(items, "]" + rest);
      CloseBrackets(items == NoItems, rest);
    case Object(fields) =>
      SerBrackets(NoItems, fields, rest);
      OpenBrackets(SerFields(fields) + ("}" + rest));
      FieldsAreLegalIff(fields, "}" + rest);
      CloseBrackets(fields == NoFields, rest);
  }

  lemma {:induction false} ItemsAreLegalIff(items: Items, tail: string)
    requires BareItems(items) && tail != "" && tail[0] in {',', ']'}
    ensures Elements(true, SerItems(items) + tail) ==
            if CleanItems(items) then Elements(items == NoItems, tail) else None
    decreases items, 0
  {
    if items == NoItems {
      assert SerItems(items) + tail == tail;
    } else {
      var front, value := items.front, Ser(items.last) + tail;
      SerItemsEnd(items, tail);
      SerIsLegalIff(items.last, tail);
      StartsBlack(items.last);
      OneElement(front == NoItems, value);
      if front == NoItems {
        assert SerItems(front) + (Comma(false) + value) == value && Comma(false) + value == value;
      } else {
        ItemsAreLegalIff(front, "," + value);
      }
    }
  }

  lemma {:induction false} KeyCharacters(key: string, rest: string)
    requires BareKey(key)
    ensures Characters(key + ("\"" + rest)) == Some(rest)
  {
    var s := key + ("\"" + rest);
    if key == "" {
      QuoteEnds(rest);
      assert s == "\"" + rest;
    } else {
      KeyCharacters(key[1..], rest);
      assert s[1..] == key[1..] + ("\"" + rest);
    }
  }

  lemma KeyIsName(key: string, value: string)
    requires BareKey(key)
    ensures Name("\"" + (key + ("\":" + value))) == Some(value)
  {
    var s := key + ("\":" + value);
    KeyCharacters(key, ":" + value);
    assert "\":" + value == "\"" + (":" + value);
    assert ("\"" + s)[1..] == s && (":" + value)[1..] == value;
  }

  lemma OneMember(first: bool, named: string, value: string)
    requires named != "" && named[0] == '\"' && Name(named) == Some(value)
    ensures Members(first, Comma(!first) + named) ==
            if Value(value).Some? then Members(false, Value(value).value) else None
  {
    assert ("," + named)[1..] == named && "" + named == named;
  }

  lemma {:induction false} FieldsAreLegalIff(fields: Fields, tail: string)
    requires BareFields(fields) && tail != "" && tail[0] in {',', '}'}
    ensures Members(true, SerFields(fields) + tail) ==
            if CleanFields(fields) then Members(fields == NoFields, tail) else None
    decreases fields, 0
  {
    if fields == NoFields {
      assert SerFields(fields) + tail == tail;
    } else {
      var front, value := fields.front, Ser(fields.value) + tail;
      var named := "\"" + (fields.key + ("\":" + value));
      SerFieldsEnd(fields, tail);
      SerIsLegalIff(fields.value, tail);
      KeyIsName(fields.key, value);
      OneMember(front == NoFields, named, value);
      if front == NoFields {
        assert SerFields(front) + (Comma(false) + named) == named && Comma(false) + named == named;
      } else {
        FieldsAreLegalIff(front, "," + named);
      }
    }
  }

  /** A whole text is legal JSON exactly when the value is clean. */
  lemma TextIsLegal(j: Json)
    requires Bare(j)
    ensures LegalText(Ser(j)) <==> Clean(j)
  {
    SerIsLegalIff(j, "");
    assert Ser(j) + "" == Ser(j);
  }

  // ---- Bare keys read back ----

  lemma {:induction false} BareIsPlain(j: Json)
    requires Bare(j)
    ensures Plain(j)
    decreases j, 0
  {
    match j
    case List(items) => BareItemsArePlain(items);
    case Object(fields) => BareFieldsArePlain(fields);
    case _ =>
  }

  lemma {:induction false} BareItemsArePlain(items: Items)
    requires BareItems(items)
    ensures PlainItems(items)
    decreases items, 0
  {
    if items != NoItems {
      BareItemsArePlain(items.front);
      BareIsPlain(items.last);
    }
  }

  lemma {:induction false} BareFieldsArePlain(fields: Fields)
    requires BareFields(fields)
    ensures PlainFields(fields)
    decreases fields, 0
  {
    if fields != NoFields {
      BareFieldsArePlain(fields.front);
      BareIsPlain(fields.value);
    }
  }

}
