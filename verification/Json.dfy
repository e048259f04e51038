/** JSON values as the caption writer emits them, their text, and a reader that gets them back. */
module Json {

  datatype Json =
    | Flag(b: bool)
    | Num(n: int)
    | Str(s: string)
    | List(items: Items)
    | Object(fields: Fields)

  /** Both grow at the end, as the writer appends to them. */
  datatype Items = NoItems | Items(front: Items, last: Json)
  datatype Fields = NoFields | Fields(front: Fields, key: string, value: Json)

  // ---- Text ----

  function Digits(n: nat): (s: string)
    ensures s != "" && forall i :: 0 <= i < |s| ==> '0' <= s[i] <= '9'
  {
    if n < 10 then ['0' + n as char] else Digits(n / 10) + ['0' + (n % 10) as char]
  }

  function Decimal(n: int): (s: string)
    ensures s != "" && forall i :: 0 <= i < |s| ==> IsNumeric(s[i])
  {
    if n < 0 then "-" + Digits(-n) else Digits(n)
  }

  predicate IsNumeric(c: char) {
    c == '-' || '0' <= c <= '9'
  }

  function EscapeChar(c: char): (s: string)
    ensures 1 <= |s| <= 2
  {
    match c
    case '\\' => "\\\\"
    case '\n' => "\\n"
    case '\r' => "\\r"
    case '\"' => "\\\""
    case _ => [c]
  }

  function Escape(s: string): string {
    if s == "" then "" else EscapeChar(s[0]) + Escape(s[1..])
  }

  function Quoted(s: string): string {
    "\"" + Escape(s) + "\""
  }

  function Key(key: string): string {
    "\"" + key + "\":"
  }

  function Ser(j: Json): (s: string)
    ensures s != ""
  {
    match j
    case Flag(b) => if b then "true" else "false"
    case Num(n) => Decimal(n)
    case Str(s) => Quoted(s)
    case List(items) => "[" + SerItems(items) + "]"
    case Object(fields) => "{" + SerFields(fields) + "}"
  }

  function Comma(needed: bool): string {
    if needed then "," else ""
  }

  function SerItems(items: Items): string {
    match items
    case NoItems => ""
    case Items(front, last) => SerItems(front) + Comma(front != NoItems) + Ser(last)
  }

  function SerFields(fields: Fields): string {
    match fields
    case NoFields => ""
    case Fields(front, key, value) => SerFields(front) + Comma(front != NoFields) + Key(key) + Ser(value)
  }

  // ---- Reading it back ----

  datatype Parsed<T> = Failed | Parsed(value: T, rest: string)

  /** Reads the rest of a string, from behind its opening quote. */
  function Unescape(s: string): (p: Parsed<string>)
    ensures p.Parsed? ==> |p.rest| < |s|
  {
    if s == "" then Failed
    else if s[0] == '\"' then Parsed("", s[1..])
    else if s[0] != '\\' then Prepend(s[0], Unescape(s[1..]))
    else if |s| < 2 then Failed
    else match s[1]
         case 'n' => Prepend('\n', Unescape(s[2..]))
         case 'r' => Prepend('\r', Unescape(s[2..]))
         case '\\' => Prepend('\\', Unescape(s[2..]))
         case '\"' => Prepend('\"', Unescape(s[2..]))
         case _ => Failed
  }

  function Prepend(c: char, p: Parsed<string>): Parsed<string> {
    if p.Parsed? then Parsed([c] + p.value, p.rest) else Failed
  }

  /** Reads a key that needs no escapes. */
  function ParseKey(s: string): (p: Parsed<string>)
    ensures p.Parsed? ==> |p.rest| < |s|
  {
    if s == "" then Failed
    else if s[0] == '\"' then (if |s| >= 2 && s[1] == ':' then Parsed("", s[2..]) else Failed)
    else Prepend(s[0], ParseKey(s[1..]))
  }

  /** The leading characters of a number. */
  function NumberPart(s: string): (t: string)
    ensures |t| <= |s| && t == s[..|t|]
  {
    if s == "" || !IsNumeric(s[0]) then "" else [s[0]] + NumberPart(s[1..])
  }

  function ValueOf(s: string): int {
    if s == "" then 0
    else 10 * ValueOf(s[..|s|-1]) + (s[|s|-1] as int - '0' as int)
  }

  function NumberOf(t: string): int
    requires t != ""
  {
    if t[0] == '-' then -ValueOf(t[1..]) else ValueOf(t)
  }

  function ParseNumber(s: string): (p: Parsed<Json>)
    ensures p.Parsed? ==> |p.rest| < |s|
  {
    var t := NumberPart(s);
    if t == "" then Failed else Parsed(Num(NumberOf(t)), s[|t|..])
  }

  function ParseValue(s: string): (p: Parsed<Json>)
    ensures p.Parsed? ==> |p.rest| < |s|
    decreases |s|, 0
  {
    if s == "" then Failed
    else if IsNumeric(s[0]) then ParseNumber(s)
    else match s[0]
         case '{' => ParseFields(NoFields, s[1..])
         case '[' => ParseItems(NoItems, s[1..])
         case '\"' =>
           var p := Unescape(s[1..]);
           if p.Parsed? then Parsed(Str(p.value), p.rest) else Failed
         case 't' => if "true" <= s then Parsed(Flag(true), s[4..]) else Failed
         case 'f' => if "false" <= s then Parsed(Flag(false), s[5..]) else Failed
         case _ => Failed
  }

  /** Behind the items read so far. */
  function ParseItems(items: Items, s: string): (p: Parsed<Json>)
    ensures p.Parsed? ==> |p.rest| < |s|
    decreases |s|, 1
  {
    if s == "" then Failed
    else if s[0] == ']' then Parsed(List(items), s[1..])
    else if items != NoItems && s[0] != ',' then Failed
    else
      var p := ParseValue(if items == NoItems then s else s[1..]);
      if p.Parsed? then ParseItems(Items(items, p.value), p.rest) else Failed
  }

  /** Behind the fields read so far. */
  function ParseFields(fields: Fields, s: string): (p: Parsed<Json>)
    ensures p.Parsed? ==> |p.rest| < |s|
    decreases |s|, 1
  {
    if s == "" then Failed
    else if s[0] == '}' then Parsed(Object(fields), s[1..])
    else if fields != NoFields && s[0] != ',' then Failed
    else
      var t := if fields == NoFields then s else s[1..];
      if t == "" || t[0] != '\"' then Failed
      else
        var k := ParseKey(t[1..]);
        if k == Failed then Failed
        else
          var p := ParseValue(k.rest);
          if p.Parsed? then ParseFields(Fields(fields, k.value, p.value), p.rest) else Failed
  }

  // ---- The round trip ----

  lemma EscapeFront(s: string, rest: string)
    requires s != ""
    ensures Escape(s) + rest == EscapeChar(s[0]) + (Escape(s[1..]) + rest)
  {
  }

  lemma {:induction false} UnescapeEscaped(s: string, rest: string)
    ensures Unescape(Escape(s) + ("\"" + rest)) == Parsed(s, rest)
  {
    if s == "" {
      UnescapeQuote(rest);
      assert Escape(s) + ("\"" + rest) == "\"" + rest;
    } else {
      EscapeFront(s, "\"" + rest);
      UnescapeEscaped(s[1..], rest);
      UnescapeOne(s[0], Escape(s[1..]) + ("\"" + rest));
      assert [s[0]] + s[1..] == s;
    }
  }

  lemma UnescapeQuote(rest: string)
    ensures Unescape("\"" + rest) == Parsed("", rest)
  {
    assert ("\"" + rest)[1..] == rest;
  }

  lemma UnescapeOne(c: char, t: string)
    ensures Unescape(EscapeChar(c) + t) == Prepend(c, Unescape(t))
  {
    var s := EscapeChar(c) + t;
    assert s[|EscapeChar(c)|..] == t;
  }

  lemma {:induction false} ValueOfDigits(n: nat)
    ensures ValueOf(Digits(n)) == n
  {
    if n < 10 {
      var d := Digits(n);
      assert d[..|d|-1] == "" && ValueOf("") == 0;
    } else {
      ValueOfDigits(n / 10);
      var d := Digits(n);
      assert d[..|d|-1] == Digits(n / 10);
    }
  }

  /** What may follow a number. */
  predicate EndsNumber(rest: string) {
    rest == "" || !IsNumeric(rest[0])
  }

  lemma {:induction false} NumberPartOf(t: string, rest: string)
    requires EndsNumber(rest) && forall i :: 0 <= i < |t| ==> IsNumeric(t[i])
    ensures NumberPart(t + rest) == t
  {
    if t == "" {
      assert t + rest == rest;
    } else {
      NumberPartOf(t[1..], rest);
      assert (t + rest)[1..] == t[1..] + rest && t == [t[0]] + t[1..];
    }
  }

  lemma NumberOfDecimal(n: int)
    ensures NumberOf(Decimal(n)) == n
  {
    if n < 0 {
      ValueOfDigits(-n);
      assert Decimal(n)[1..] == Digits(-n);
    } else {
      ValueOfDigits(n);
      assert '0' <= Digits(n)[0] <= '9';
    }
  }

  lemma NumberRoundTrip(n: int, rest: string)
    requires EndsNumber(rest)
    ensures ParseValue(Decimal(n) + rest) == Parsed(Num(n), rest)
  {
    var t := Decimal(n);
    NumberPartOf(t, rest);
    NumberOfDecimal(n);
    assert (t + rest)[|t|..] == rest && (t + rest)[0] == t[0];
  }

  /** Keys are plain: no quote and no escape is needed. */
  predicate PlainKey(key: string) {
    forall i :: 0 <= i < |key| ==> key[i] != '\"'
  }

  lemma {:induction false} KeyRoundTrip(key: string, rest: string)
    requires PlainKey(key)
    ensures ParseKey(key + ("\":" + rest)) == Parsed(key, rest)
  {
    var s := key + ("\":" + rest);
    if key == "" {
      assert s == "\":" + rest;
      assert s[2..] == rest;
    } else {
      KeyRoundTrip(key[1..], rest);
      assert s[1..] == key[1..] + ("\":" + rest);
      assert [key[0]] + key[1..] == key;
    }
  }

  /** All keys in a value are plain. */
  predicate Plain(j: Json) {
    match j
    case List(items) => PlainItems(items)
    case Object(fields) => PlainFields(fields)
    case _ => true
  }

  predicate PlainItems(items: Items) {
    items == NoItems || (PlainItems(items.front) && Plain(items.last))
  }

  predicate PlainFields(fields: Fields) {
    fields == NoFields || (PlainFields(fields.front) && PlainKey(fields.key) && Plain(fields.value))
  }

  /** The first character tells that a value is there, and not the end of a list. */
  lemma StartsValue(j: Json)
    ensures Ser(j)[0] != ']' && Ser(j)[0] != '}' && Ser(j)[0] != ','
  {
  }

  lemma ParseList(s: string)
    ensures ParseValue("[" + s) == ParseItems(NoItems, s)
  {
    assert ("[" + s)[1..] == s;
  }

  lemma ParseObject(s: string)
    ensures ParseValue("{" + s) == ParseFields(NoFields, s)
  {
    assert ("{" + s)[1..] == s;
  }

  lemma ParseEnd(items: Items, fields: Fields, rest: string)
    ensures ParseItems(items, "]" + rest) == Parsed(List(items), rest)
    ensures ParseFields(fields, "}" + rest) == Parsed(Object(fields), rest)
  {
    assert ("]" + rest)[1..] == rest && ("}" + rest)[1..] == rest;
  }

  lemma SerBrackets(items: Items, fields: Fields, rest: string)
    ensures Ser(List(items)) + rest == "[" + (SerItems(items) + ("]" + rest))
    ensures Ser(Object(fields)) + rest == "{" + (SerFields(fields) + ("}" + rest))
  {
  }

  /** The text of a value reads back as that value, whatever follows that is not a digit. */
  lemma {:induction false} SerRoundTrip(j: Json, rest: string)
    requires Plain(j) && EndsNumber(rest)
    ensures ParseValue(Ser(j) + rest) == Parsed(j, rest)
    decreases j, 0
  {
    match j
    case Flag(b) => FlagRoundTrip(b, rest);
    case Num(n) => NumberRoundTrip(n, rest);
    case Str(t) => TextRoundTrip(t, rest);
    case List(items) =>
      SerBrackets(items, NoFields, rest);
      ParseList(SerItems(items) + ("]" + rest));
      ItemsRoundTrip(items, "]" + rest);
      ParseEnd(items, NoFields, rest);
    case Object(fields) =>
      SerBrackets(NoItems, fields, rest);
      ParseObject(SerFields(fields) + ("}" + rest));
      FieldsRoundTrip(fields, "}" + rest);
      ParseEnd(NoItems, fields, rest);
  }

  lemma FlagRoundTrip(b: bool, rest: string)
    ensures ParseValue(Ser(Flag(b)) + rest) == Parsed(Flag(b), rest)
  {
    var s := Ser(Flag(b)) + rest;
    assert s[|Ser(Flag(b))|..] == rest;
    assert b ==> s[0] == 't' && "true" <= s;
    assert !b ==> s[0] == 'f' && "false" <= s;
  }

  lemma TextRoundTrip(t: string, rest: string)
    ensures ParseValue(Quoted(t) + rest) == Parsed(Str(t), rest)
  {
    var s := Escape(t) + ("\"" + rest);
    UnescapeEscaped(t, rest);
    assert Quoted(t) + rest == "\"" + s;
    assert ("\"" + s)[1..] == s;
  }

  lemma SerItemsEnd(items: Items, tail: string)
    requires items != NoItems
    ensures SerItems(items) + tail == SerItems(items.front) + (Comma(items.front != NoItems) + (Ser(items.last) + tail))
  {
  }

  lemma ParseItem(front: Items, v: Json, value: string, rest: string)
    requires value != "" && value[0] != ']' && ParseValue(value) == Parsed(v, rest)
    ensures ParseItems(front, Comma(front != NoItems) + value) == ParseItems(Items(front, v), rest)
  {
    assert ("," + value)[1..] == value && "" + value == value;
  }

  /** Reading the text of some items, and what follows them, leads to where they were all read. */
  lemma {:induction false} ItemsRoundTrip(items: Items, tail: string)
    requires PlainItems(items) && tail != "" && tail[0] in {',', ']'}
    ensures ParseItems(NoItems, SerItems(items) + tail) == ParseItems(items, tail)
    decreases items, 0
  {
    if items == NoItems {
      assert SerItems(items) + tail == tail;
    } else {
      var front, value := items.front, Ser(items.last) + tail;
      SerItemsEnd(items, tail);
      SerRoundTrip(items.last, tail);
      StartsValue(items.last);
      ParseItem(front, items.last, value, tail);
      if front == NoItems {
        assert SerItems(front) + (Comma(false) + value) == value && Comma(false) + value == value;
      } else {
        ItemsRoundTrip(front, "," + value);
      }
    }
  }

  lemma SerFieldsEnd(fields: Fields, tail: string)
    requires fields != NoFields
    ensures SerFields(fields) + tail
         == SerFields(fields.front)
            + (Comma(fields.front != NoFields) + ("\"" + (fields.key + ("\":" + (Ser(fields.value) + tail)))))
  {
  }

  lemma ParseField(front: Fields, key: string, v: Json, keyed: string, value: string, rest: string)
    requires ParseKey(keyed) == Parsed(key, value) && ParseValue(value) == Parsed(v, rest)
    ensures ParseFields(front, Comma(front != NoFields) + ("\"" + keyed)) == ParseFields(Fields(front, key, v), rest)
  {
    assert (",\"" + keyed)[1..] == "\"" + keyed && ("\"" + keyed)[1..] == keyed;
    assert "," + ("\"" + keyed) == ",\"" + keyed && "" + ("\"" + keyed) == "\"" + keyed;
  }

  lemma {:induction false} FieldsRoundTrip(fields: Fields, tail: string)
    requires PlainFields(fields) && tail != "" && tail[0] in {',', '}'}
    ensures ParseFields(NoFields, SerFields(fields) + tail) == ParseFields(fields, tail)
    decreases fields, 0
  {
    if fields == NoFields {
      assert SerFields(fields) + tail == tail;
    } else {
      var front, value := fields.front, Ser(fields.value) + tail;
      var keyed := fields.key + ("\":" + value);
      SerFieldsEnd(fields, tail);
      SerRoundTrip(fields.value, tail);
      KeyRoundTrip(fields.key, value);
      ParseField(front, fields.key, fields.value, keyed, value, tail);
      if front == NoFields {
        assert SerFields(front) + (Comma(false) + ("\"" + keyed)) == Comma(false) + ("\"" + keyed);
      } else {
        FieldsRoundTrip(front, "," + ("\"" + keyed));
      }
    }
  }

  /** Escaping goes on where it was. */
  lemma {:induction false} EscapeAppend(s: string, c: char)
    ensures Escape(s + [c]) == Escape(s) + EscapeChar(c)
  {
    if s == "" {
      assert s + [c] == [c] && [c][1..] == "";
      assert Escape([c]) == EscapeChar(c) + Escape("");
    } else {
      assert (s + [c])[1..] == s[1..] + [c];
      EscapeAppend(s[1..], c);
    }
  }

}
