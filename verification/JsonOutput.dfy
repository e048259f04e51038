/** The bounded writer of caption JSON: text goes into a fixed buffer, and a piece that does not
    fit with a terminator behind it is refused. */
module JsonOutput {
  import opened Json

  type int32 = x: int | -0x8000_0000 <= x < 0x8000_0000

  lemma {:induction false} DigitsLength(n: nat, k: nat)
    requires k >= 1 && n < Pow10(k)
    ensures |Digits(n)| <= k
  {
    if n >= 10 {
      DigitsLength(n / 10, k - 1);
    }
  }

  function Pow10(k: nat): nat {
    if k == 0 then 1 else 10 * Pow10(k - 1)
  }

  /** No 32-bit number has more than eleven characters. */
  lemma DecimalLength(n: int32)
    ensures |Decimal(n)| <= 11
  {
    assert Pow10(10) == 10_000_000_000;
    var magnitude: int := if n < 0 then 0 - n else n;
    DigitsLength(magnitude, 10);
  }

  class Output {
    const buf: array<char>
    var po: nat
    var left: nat
    var hasProp: bool
    const flash: int32

    predicate Valid()
      reads this
    {
      po + left == buf.Length
    }

    /** The text written so far. */
    function Text(): (t: string)
      reads this, buf
      requires Valid()
      ensures |t| == po
    {
      buf[..po]
    }

    /** The state behind a piece that was written, or refused. */
    twostate predicate Wrote(ok: bool, t: string, hasProp': bool)
      requires old(Valid())
      reads this, buf
    {
      && Valid() && ok == (|t| < old(left))
      && (ok ==> Text() == old(Text()) + t && left == old(left) - |t| && hasProp == hasProp')
      && left <= old(left)
    }

    /** A buffer of `buffer.Length` characters, all free; `nsec` is the clock's nanoseconds. */
    constructor (buffer: array<char>, nsec: nat)
      ensures Valid() && Text() == "" && buf == buffer && left == buffer.Length && !hasProp
    {
      buf, po, left, hasProp := buffer, 0, buffer.Length, false;
      flash := (nsec / 250_000_000) % 2;
    }

    /** What `vsnprintf` does: as much of the text as fits, and a terminator. */
    method Print(text: string)
      requires Valid()
      modifies buf
      ensures forall i :: 0 <= i < po ==> buf[i] == old(buf[i])
      ensures |text| < left ==> buf[po..po + |text|] == text && buf[po + |text|] == '\0'
    {
      if left > 0 {
        var n := if |text| < left then |text| else left - 1;
        for i := 0 to n
          invariant forall k :: 0 <= k < po ==> buf[k] == old(buf[k])
          invariant buf[po..po + i] == text[..i]
        {
          buf[po + i] := text[i];
        }
        buf[po + n] := '\0';
      }
    }

    method OPrintf(text: string) returns (ok: bool)
      requires Valid()
      modifies this`po, this`left, buf
      ensures Wrote(ok, text, old(hasProp))
      ensures !ok ==> left == old(left)
      ensures ok ==> left > 0 && buf[po] == '\0'
    {
      Print(text);
      if |text| >= left {
        return false;
      }
      po := po + |text|;
      left := left - |text|;
      ok := true;
    }

    method OPropBegin(key: string) returns (ok: bool)
      requires Valid()
      modifies this`po, this`left, this`hasProp, buf
      ensures Wrote(ok, Comma(old(hasProp)) + Key(key), false)
      ensures !ok ==> left <= |Key(key)| && hasProp == old(hasProp)
      ensures ok ==> left > 0
    {
      if hasProp {
        ok := OPrintf(",");
        if !ok { return; }
      }
      ok := OPrintf("\"" + key + "\":");
      if !ok { return; }
      hasProp := false;
    }

    method OPropEnd()
      modifies this`hasProp
      ensures hasProp
    {
      hasProp := true;
    }

    /** Brackets; an opening one behind a value gets a comma. */
    method OSymbol(sym: char) returns (ok: bool)
      requires Valid() && sym in {'{', '[', '}', ']'}
      modifies this`po, this`left, this`hasProp, buf
      ensures Wrote(ok, Comma(old(hasProp) && sym in {'{', '['}) + [sym], sym in {'}', ']'})
      ensures ok ==> left > 0 && buf[po] == '\0'
    {
      if hasProp && (sym == '{' || sym == '[') {
        ok := OPrintf(",");
        if !ok { return; }
      }
      ok := OPrintf([sym]);
      if !ok { return; }
      if sym == '[' || sym == '{' {
        hasProp := false;
      } else if sym == ']' || sym == '}' {
        hasProp := true;
      }
    }

    /** A property with a plain value. */
    method OScalarProp(key: string, value: string) returns (ok: bool)
      requires Valid()
      modifies this`po, this`left, this`hasProp, buf
      ensures Wrote(ok, Comma(old(hasProp)) + Key(key) + value, true)
      ensures !ok ==> left <= |Key(key)| || left <= |value|
    {
      ok := OPropBegin(key);
      if !ok { return; }
      ok := OPrintf(value);
      if !ok { return; }
      OPropEnd();
    }

    method OBoolProp(key: string, val: bool) returns (ok: bool)
      requires Valid()
      modifies this`po, this`left, this`hasProp, buf
      ensures Wrote(ok, Comma(old(hasProp)) + Key(key) + Ser(Flag(val)), true)
      ensures !ok ==> left <= |Key(key)| || left <= 5
    {
      ok := OScalarProp(key, if val then "true" else "false");
    }

    method OIntProp(key: string, val: int32) returns (ok: bool)
      requires Valid()
      modifies this`po, this`left, this`hasProp, buf
      ensures Wrote(ok, Comma(old(hasProp)) + Key(key) + Ser(Num(val)), true)
      ensures !ok ==> left <= |Key(key)| || left <= 11
    {
      DecimalLength(val);
      ok := OScalarProp(key, Decimal(val));
    }

    /** One character, without a terminator behind it. */
    method PutC(c: char) returns (ok: bool)
      requires Valid()
      modifies this`po, this`left, buf
      ensures Valid() && ok == (old(left) > 0)
      ensures ok ==> Text() == old(Text()) + [c] && left == old(left) - 1
      ensures !ok ==> Text() == old(Text()) && left == old(left)
    {
      if left == 0 {
        return false;
      }
      buf[po] := c;
      po := po + 1;
      left := left - 1;
      ok := true;
    }

    method PutEscaped(c: char) returns (ok: bool)
      requires Valid()
      modifies this`po, this`left, buf
      ensures Valid() && ok == (|EscapeChar(c)| <= old(left)) && left <= old(left)
      ensures ok ==> Text() == old(Text()) + EscapeChar(c) && left == old(left) - |EscapeChar(c)|
    {
      match c
      case '\\' =>
        ok := PutC('\\');
        if ok { ok := PutC('\\'); }
      case '\n' =>
        ok := PutC('\\');
        if ok { ok := PutC('n'); }
      case '\r' =>
        ok := PutC('\\');
        if ok { ok := PutC('r'); }
      case '\"' =>
        ok := PutC('\\');
        if ok { ok := PutC('\"'); }
      case _ =>
        ok := PutC(c);
    }

    /** The escaped characters of a text, as far as there is room. */
    method PutAll(val: string) returns (ok: bool)
      requires Valid()
      modifies this`po, this`left, buf
      ensures Valid() && ok == (|Escape(val)| <= old(left)) && left <= old(left)
      ensures ok ==> Text() == old(Text()) + Escape(val) && left == old(left) - |Escape(val)|
    {
      ok := true;
      for i := 0 to |val|
        invariant Valid() && left == old(left) - |Escape(val[..i])|
        invariant Text() == old(Text()) + Escape(val[..i])
      {
        EscapeAppend(val[..i], val[i]);
        assert val[..i] + [val[i]] == val[..i + 1];
        EscapeGrows(val, i + 1);
        ok := PutEscaped(val[i]);
        if !ok { return; }
      }
      assert val[..|val|] == val;
      ok := true;
    }

    method PutQuoted(val: string) returns (ok: bool)
      requires Valid()
      modifies this`po, this`left, buf
      ensures Wrote(ok, Quoted(val), old(hasProp))
    {
      ok := OPrintf("\"");
      if !ok { return; }
      ok := PutAll(val);
      if !ok { return; }
      ok := OPrintf("\"");
    }

    method OStrProp(key: string, val: string) returns (ok: bool)
      requires Valid()
      modifies this`po, this`left, this`hasProp, buf
      ensures Wrote(ok, Comma(old(hasProp)) + Key(key) + Ser(Str(val)), true)
    {
      ok := OPropBegin(key);
      if !ok { return; }
      ok := PutQuoted(val);
      if !ok { return; }
      OPropEnd();
    }

    // ---- Objects and lists, piece by piece ----

    /** An object is open, with its first `n` properties written. */
    ghost predicate InObject(o: Outline, n: nat)
      reads this, buf
    {
      Valid() && n < |o.heads| && Text() == o.heads[n] && hasProp == (n > 0)
    }

    /** A list is open, with some of its items written. */
    ghost predicate InList(list: string, js: seq<Json>)
      reads this, buf
    {
      Valid() && Text() == list + "[" + SerItems(ItemsOf(js)) && hasProp == (js != [])
    }

    /** The whole object does not fit the buffer. */
    predicate TooLong(o: Outline)
      reads this
    {
      o.total >= buf.Length
    }

    /** A value was put behind the text, after a comma if one was needed; it was refused exactly
        when it did not fit. */
    ghost predicate Emitted(ok: bool, text: string, comma: bool, j: Json)
      requires Valid()
      reads this, buf
    {
      && ok == (|text| + |Comma(comma)| + |Ser(j)| < buf.Length)
      && (ok ==> Text() == text + Comma(comma) + Ser(j) && hasProp && left > 0 && buf[po] == '\0')
    }

    /** Begins an object, behind a comma if one is needed. */
    method OpenObject(ghost all: seq<Prop>) returns (ok: bool, ghost o: Outline)
      requires Valid()
      modifies this`po, this`left, this`hasProp, buf
      ensures Valid() && Right(o) && o.all == all && Closes(o)
      ensures o.start == old(Text()) + Comma(old(hasProp))
      ensures if ok then InObject(o, 0) else TooLong(o)
    {
      o := Outlined(Text() + Comma(hasProp), all);
      OutlineIsRight(Text() + Comma(hasProp), all);
      OutlineEnds(Text() + Comma(hasProp), all);
      OutlineCloses(o);
      ok := OSymbol('{');
    }

    method CloseObject(ghost o: Outline) returns (ok: bool)
      requires Right(o) && Closes(o) && InObject(o, |o.all|)
      modifies this`po, this`left, this`hasProp, buf
      ensures Valid() && ok == !TooLong(o)
      ensures ok ==> Text() == o.start + Ser(Object(FieldsOf(o.all))) && hasProp && left > 0 && buf[po] == '\0'
    {
      ok := OSymbol('}');
    }

    /** Begins a list that is the value of a property. */
    method OpenListField(key: string, ghost o: Outline, ghost n: nat) returns (ok: bool)
      requires Right(o) && n < |o.all| && o.all[n].key == key && o.all[n].value.List? && InObject(o, n)
      modifies this`po, this`left, this`hasProp, buf
      ensures Valid() && if ok then InList(ListStart(o, n), []) else TooLong(o)
    {
      ListFits(o, n);
      ok := OPropBegin(key);
      if !ok { return; }
      ok := OSymbol('[');
    }

    method CloseListField(ghost o: Outline, ghost n: nat, ghost js: seq<Json>) returns (ok: bool)
      requires Right(o) && n < |o.all| && o.all[n].value == List(ItemsOf(js)) && InList(ListStart(o, n), js)
      modifies this`po, this`left, this`hasProp, buf
      ensures Valid() && if ok then InObject(o, n + 1) else TooLong(o)
    {
      ListFits(o, n);
      ListEnds(ListStart(o, n), ItemsOf(js));
      ok := OSymbol(']');
    }

    method StrField(key: string, val: string, ghost o: Outline, ghost n: nat) returns (ok: bool)
      requires Right(o) && n < |o.all| && o.all[n] == Prop(key, Str(val)) && InObject(o, n)
      modifies this`po, this`left, this`hasProp, buf
      ensures Valid() && if ok then InObject(o, n + 1) else TooLong(o)
    {
      assert StepRight(o, n);
      ok := OStrProp(key, val);
    }

    method BoolField(key: string, val: bool, ghost o: Outline, ghost n: nat) returns (ok: bool)
      requires Right(o) && n < |o.all| && o.all[n] == Prop(key, Flag(val)) && InObject(o, n)
      modifies this`po, this`left, this`hasProp, buf
      ensures Valid() && if ok then InObject(o, n + 1) else TooLong(o)
    {
      assert StepRight(o, n);
      ok := OBoolProp(key, val);
    }

    method IntField(key: string, val: int32, ghost o: Outline, ghost n: nat) returns (ok: bool)
      requires Right(o) && n < |o.all| && o.all[n] == Prop(key, Num(val)) && InObject(o, n)
      modifies this`po, this`left, this`hasProp, buf
      ensures Valid() && if ok then InObject(o, n + 1) else TooLong(o)
    {
      assert StepRight(o, n);
      ok := OIntProp(key, val);
    }
  }

  /** A property of an object. */
  datatype Prop = Prop(key: string, value: Json)

  function FieldsOf(ps: seq<Prop>): (fs: Fields)
    ensures fs == NoFields <==> ps == []
  {
    if ps == [] then NoFields
    else
      var p := ps[|ps|-1];
      Fields(FieldsOf(ps[..|ps|-1]), p.key, p.value)
  }

  function ItemsOf(js: seq<Json>): (items: Items)
    ensures items == NoItems <==> js == []
  {
    if js == [] then NoItems else Items(ItemsOf(js[..|js|-1]), js[|js|-1])
  }

  /** An object to be written: the texts up to each of its properties, and the length of all. */
  datatype Outline = Outline(start: string, all: seq<Prop>, heads: seq<string>, total: nat)

  function Outlined(start: string, all: seq<Prop>): Outline {
    Outline(start, all,
            seq(|all| + 1, n requires 0 <= n <= |all| => start + "{" + SerFields(FieldsOf(all[..n]))),
            |start| + |Ser(Object(FieldsOf(all)))|)
  }

  /** What one more property adds to the text. */
  predicate StepRight(o: Outline, n: nat)
    requires n < |o.all| && |o.heads| == |o.all| + 1
  {
    && o.heads[n + 1] == o.heads[n] + (Comma(n > 0) + Key(o.all[n].key) + Ser(o.all[n].value))
    && |o.heads[n + 1]| < o.total
  }

  predicate Right(o: Outline) {
    && |o.heads| == |o.all| + 1
    && forall n {:trigger StepRight(o, n)} :: 0 <= n < |o.all| ==> StepRight(o, n)
  }

  /** A brace behind the last property makes the whole object. */
  predicate Closes(o: Outline)
    requires Right(o)
  {
    && o.heads[|o.all|] + "}" == o.start + Ser(Object(FieldsOf(o.all)))
    && o.total == |o.start| + |Ser(Object(FieldsOf(o.all)))|
  }

  lemma FieldsStep(all: seq<Prop>, n: nat)
    requires n < |all|
    ensures SerFields(FieldsOf(all[..n + 1]))
         == SerFields(FieldsOf(all[..n])) + Comma(n > 0) + Key(all[n].key) + Ser(all[n].value)
  {
    assert all[..n + 1][..n] == all[..n];
  }

  lemma Regroup(a: string, b: string, c: string, d: string, e: string)
    ensures a + (b + c + d + e) == a + b + (c + d + e)
    ensures a + b + (c + d + e) == a + b + c + d + e
  {
  }

  lemma OutlineStep(start: string, all: seq<Prop>, n: nat)
    requires n < |all|
    ensures StepRight(Outlined(start, all), n)
  {
    FieldsStep(all, n);
    Regroup(start + "{", SerFields(FieldsOf(all[..n])), Comma(n > 0), Key(all[n].key), Ser(all[n].value));
    FieldsGrow(all, n + 1);
  }

  lemma OutlineEnds(start: string, all: seq<Prop>)
    ensures Outlined(start, all).heads[0] == start + "{"
    ensures Outlined(start, all).heads[|all|] == start + "{" + SerFields(FieldsOf(all))
  {
    assert all[..|all|] == all && all[..0] == [];
    assert start + "{" + "" == start + "{";
  }

  lemma OutlineCloses(o: Outline)
    requires Right(o) && o.heads[|o.all|] == o.start + "{" + SerFields(FieldsOf(o.all))
    requires o.total == |o.start| + |Ser(Object(FieldsOf(o.all)))|
    ensures Closes(o)
  {
    BracesEnd(o.start, SerFields(FieldsOf(o.all)));
  }

  lemma OutlineIsRight(start: string, all: seq<Prop>)
    ensures Right(Outlined(start, all))
  {
    forall n | 0 <= n < |all| ensures StepRight(Outlined(start, all), n) {
      OutlineStep(start, all, n);
    }
  }

  lemma BracesEnd(start: string, fields: string)
    ensures start + "{" + fields + "}" == start + ("{" + fields + "}")
  {
  }

  lemma ListEnds(list: string, items: Items)
    ensures list + "[" + SerItems(items) + ("" + "]") == list + Ser(List(items))
    ensures |list + "[" + SerItems(items)| + 1 == |list| + |Ser(List(items))|
  {
    var t := SerItems(items);
    assert "" + "]" == "]" && Ser(List(items)) == "[" + t + "]";
    assert list + "[" + t + "]" == list + ("[" + t + "]");
  }

  /** Where the list that is the `n`th property begins. */
  function ListStart(o: Outline, n: nat): string
    requires n < |o.all| && n < |o.heads|
  {
    o.heads[n] + (Comma(n > 0) + Key(o.all[n].key))
  }

  lemma ListFits(o: Outline, n: nat)
    requires Right(o) && n < |o.all| && o.all[n].value.List?
    ensures o.heads[n + 1] == ListStart(o, n) + Ser(o.all[n].value)
    ensures |ListStart(o, n)| + |Ser(o.all[n].value)| < o.total
    ensures |Ser(o.all[n].value)| >= 2
  {
    assert StepRight(o, n);
  }

  lemma {:induction false} FieldsGrow(all: seq<Prop>, n: nat)
    requires n <= |all|
    ensures |SerFields(FieldsOf(all[..n]))| <= |SerFields(FieldsOf(all))|
  {
    if n < |all| {
      FieldsGrow(all[..|all|-1], n);
      assert all[..|all|-1][..n] == all[..n];
    } else {
      assert all[..n] == all;
    }
  }

  /** What one more item adds to the text. */
  lemma ItemAdded(list: string, js: seq<Json>, j: Json)
    ensures list + "[" + SerItems(ItemsOf(js)) + Comma(js != []) + Ser(j) == list + "[" + SerItems(ItemsOf(js + [j]))
  {
    assert (js + [j])[..|js|] == js;
    Regroup(list + "[", SerItems(ItemsOf(js)), Comma(js != []), Ser(j), "");
  }

  /** The text of items only gets longer. */
  lemma {:induction false} ItemsGrow(js: seq<Json>, n: nat)
    requires n <= |js|
    ensures |SerItems(ItemsOf(js[..n]))| <= |SerItems(ItemsOf(js))|
  {
    if n < |js| {
      ItemsGrow(js[..|js|-1], n);
      assert js[..|js|-1][..n] == js[..n];
    } else {
      assert js[..n] == js;
    }
  }

  lemma {:induction false} EscapeGrows(s: string, i: nat)
    requires i <= |s|
    ensures |Escape(s[..i])| <= |Escape(s)|
    decreases |s| - i
  {
    if i < |s| {
      EscapeGrows(s, i + 1);
      EscapeAppend(s[..i], s[i]);
      assert s[..i] + [s[i]] == s[..i + 1];
    } else {
      assert s[..i] == s;
    }
  }

}
