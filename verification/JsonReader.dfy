/** A reader for compact JSON text (RFC 8259, sections 3 to 7, with integers for numbers), and that it
    makes of every written value what was written. */
module JsonReader {
  import opened Bytes
  import opened Decimal
  import opened JsonFraming
  import opened JsonStream
  import opened JsonText
  import opened RpcWire
  import opened Trim

  datatype Read<+T> = Fail | Got(value: T, rest: string)

  // ------------------------------------------------------------------- strings

  function HexValue(c: char): Option<nat> {
    if '0' <= c <= '9' then Some(c as int - '0' as int)
    else if 'A' <= c <= 'F' then Some(c as int - 'A' as int + 10)
    else if 'a' <= c <= 'f' then Some(c as int - 'a' as int + 10)
    else None
  }

  /** The character that a backslash and this one stand for. */
  function Unescaped(c: char): Option<char> {
    match c
    case '"' => Some('"')
    case '\\' => Some('\\')
    case '/' => Some('/')
    case 'b' => Some(8 as char)
    case 'f' => Some(12 as char)
    case 'n' => Some(10 as char)
    case 'r' => Some(13 as char)
    case 't' => Some(9 as char)
    case _ => None
  }

  function Prepend(c: char, r: Read<string>): Read<string> {
    match r
    case Fail => Fail
    case Got(s, rest) => Got([c] + s, rest)
  }

  /** What is behind an opening quote, up to the closing one. */
  function ReadString(e: string): (r: Read<string>)
    ensures r.Got? ==> |r.rest| < |e|
  {
    if e == "" || e[0] as int < 32 then Fail
    else if e[0] == '"' then Got("", e[1..])
    else if e[0] != '\\' then Prepend(e[0], ReadString(e[1..]))
    else if |e| < 2 then Fail
    else if e[1] == 'u' then
      if |e| < 6 || e[2..4] != "00" || HexValue(e[4]).None? || HexValue(e[5]).None? then Fail
      else Prepend((16 * HexValue(e[4]).value + HexValue(e[5]).value) as char, ReadString(e[6..]))
    else if Unescaped(e[1]).None? then Fail
    else Prepend(Unescaped(e[1]).value, ReadString(e[2..]))
  }

  lemma HexDigitValue(d: nat)
    requires d < 16
    ensures HexValue(HexDigit(d)) == Some(d)
  {
  }

  lemma TwoMore(a: char, b: char, tail: string)
    ensures ([a, b] + tail)[0] == a && ([a, b] + tail)[1] == b && ([a, b] + tail)[2..] == tail
  {
  }

  lemma SixMore(e: string, tail: string)
    requires |e| == 6
    ensures (e + tail)[2..4] == e[2..4] && (e + tail)[6..] == tail
  {
  }

  /** A written character is read back. */
  lemma CharIsRead(c: char, tail: string)
    ensures ReadString(EscapeChar(c) + tail) == Prepend(c, ReadString(tail))
  {
    var e := EscapeChar(c);
    if |e| == 2 {
      TwoMore(e[0], e[1], tail);
      assert e == [e[0], e[1]];
    } else if |e| == 1 {
      assert (e + tail)[0] == c && (e + tail)[1..] == tail;
    } else {
      HexDigitValue(c as int / 16);
      HexDigitValue(c as int % 16);
      SixMore(e, tail);
      assert e[2..4] == "00";
    }
  }

  lemma {:induction false} StringIsRead(s: string, rest: string)
    ensures ReadString(Escape(s) + ("\"" + rest)) == Got(s, rest)
  {
    if s == "" {
      assert Escape(s) + ("\"" + rest) == "\"" + rest;
      assert ("\"" + rest)[1..] == rest;
    } else {
      var tail := Escape(s[1..]) + ("\"" + rest);
      assert Escape(s) + ("\"" + rest) == EscapeChar(s[0]) + tail;
      CharIsRead(s[0], tail);
      StringIsRead(s[1..], rest);
      assert [s[0]] + s[1..] == s;
    }
  }

  // ------------------------------------------------------------------- numbers

  predicate IsDigit(c: char) {
    '0' <= c <= '9'
  }

  /** How many digits a text begins with. */
  function DigitCount(s: string): (n: nat)
    ensures n <= |s| && forall i :: 0 <= i < n ==> IsDigit(s[i])
    ensures n < |s| ==> !IsDigit(s[n])
  {
    if s == "" || !IsDigit(s[0]) then 0 else 1 + DigitCount(s[1..])
  }

  /** The number that digits stand for. */
  function Value(s: string): nat
    requires forall i :: 0 <= i < |s| ==> IsDigit(s[i])
  {
    if s == "" then 0
    else
      assert IsDigit(s[|s| - 1]);
      10 * Value(s[..|s| - 1]) + (s[|s| - 1] as int - '0' as int)
  }

  function ReadNat(s: string): (r: Read<int>)
    ensures r.Got? ==> |r.rest| < |s|
  {
    var n := DigitCount(s);
    if n == 0 then Fail else Got(Value(s[..n]), s[n..])
  }

  function ReadInt(s: string): (r: Read<int>)
    ensures r.Got? ==> |r.rest| < |s|
  {
    if s != "" && s[0] == '-' then
      match ReadNat(s[1..])
      case Fail => Fail
      case Got(i, rest) => Got(-i, rest)
    else ReadNat(s)
  }

  lemma {:induction false} NumeralValue(n: nat)
    ensures Value(Numeral(n)) == n
  {
    var s := Numeral(n);
    if n < 10 {
      assert s[..0] == "";
    } else {
      NumeralValue(n / 10);
      assert s[..|s| - 1] == Numeral(n / 10);
    }
  }

  /** What follows does not continue a number. */
  predicate NoDigit(rest: string) {
    rest == "" || !IsDigit(rest[0])
  }

  lemma {:induction false} AllDigits(s: string, rest: string)
    requires (forall i :: 0 <= i < |s| ==> IsDigit(s[i])) && NoDigit(rest)
    ensures DigitCount(s + rest) == |s|
  {
    if s == "" {
      assert s + rest == rest;
    } else {
      assert (s + rest)[1..] == s[1..] + rest;
      AllDigits(s[1..], rest);
    }
  }

  lemma NumeralIsRead(n: nat, rest: string)
    requires NoDigit(rest)
    ensures ReadNat(Numeral(n) + rest) == Got(n, rest)
  {
    AllDigits(Numeral(n), rest);
    NumeralValue(n);
    TakeDrop(Numeral(n), rest);
  }

  lemma NegativeIsRead(n: nat, rest: string)
    requires NoDigit(rest)
    ensures ReadInt(['-'] + (Numeral(n) + rest)) == Got(-(n as int), rest)
  {
    NumeralIsRead(n, rest);
    MinusIsRead(Numeral(n) + rest);
  }

  lemma NaturalIsRead(n: nat, rest: string)
    requires NoDigit(rest)
    ensures ReadInt(Numeral(n) + rest) == Got(n, rest)
  {
    NumeralIsRead(n, rest);
    First(Numeral(n), rest);
  }

  lemma IntIsRead(i: int, rest: string)
    requires NoDigit(rest)
    ensures ReadInt(ToString(i) + rest) == Got(i, rest)
  {
    if i < 0 {
      NegativeIsRead(-i, rest);
      Associate("-", Numeral(-i), rest);
    } else {
      NaturalIsRead(i, rest);
    }
  }

  lemma First(a: string, b: string)
    requires a != ""
    ensures a + b != "" && (a + b)[0] == a[0]
  {
  }

  lemma MinusIsRead(s: string)
    ensures ReadInt(['-'] + s)
         == match ReadNat(s)
            case Fail => Fail
            case Got(i, rest) => Got(-i, rest)
  {
    Behind('-', s);
  }

  lemma Behind(c: char, s: string)
    ensures ([c] + s)[0] == c && ([c] + s)[1..] == s
  {
  }

  // -------------------------------------------------------------------- values

  function ReadWord(word: string, j: Json, s: string): (r: Read<Json>)
    requires word != ""
    ensures r.Got? ==> |r.rest| < |s|
  {
    if word <= s then Got(j, s[|word|..]) else Fail
  }

  function ReadText(s: string): (r: Read<Json>)
    ensures r.Got? ==> |r.rest| < |s|
  {
    match ReadString(s)
    case Fail => Fail
    case Got(t, rest) => Got(Str(t), rest)
  }

  function ReadNumber(s: string): (r: Read<Json>)
    ensures r.Got? ==> |r.rest| < |s|
  {
    match ReadInt(s)
    case Fail => Fail
    case Got(i, rest) => Got(Int(i), rest)
  }

  function ReadValue(s: string): (r: Read<Json>)
    ensures r.Got? ==> |r.rest| < |s|
    decreases |s|, 0
  {
    if s == "" then Fail
    else if s[0] == 'n' then ReadWord("null", Null, s)
    else if s[0] == 't' then ReadWord("true", Bool(true), s)
    else if s[0] == 'f' then ReadWord("false", Bool(false), s)
    else if s[0] == '"' then ReadText(s[1..])
    else if s[0] == '[' then ReadArray(s[1..])
    else if s[0] == '{' then ReadObject(s[1..])
    else ReadNumber(s)
  }

  /** What is behind an opening bracket. */
  function ReadArray(s: string): (r: Read<Json>)
    ensures r.Got? ==> |r.rest| < |s|
    decreases |s|, 2
  {
    if s != "" && s[0] == ']' then Got(Arr(NoItems), s[1..])
    else
      match ReadItems(s)
      case Fail => Fail
      case Got(items, rest) => Got(Arr(items), rest)
  }

  function ReadObject(s: string): (r: Read<Json>)
    ensures r.Got? ==> |r.rest| < |s|
    decreases |s|, 2
  {
    if s != "" && s[0] == '}' then Got(Obj(NoFields), s[1..])
    else
      match ReadFields(s)
      case Fail => Fail
      case Got(fields, rest) => Got(Obj(fields), rest)
  }

  /** One value or more, between commas, and the bracket behind them. */
  function ReadItems(s: string): (r: Read<Items>)
    ensures r.Got? ==> |r.rest| < |s|
    decreases |s|, 1
  {
    match ReadValue(s)
    case Fail => Fail
    case Got(head, after) =>
      if after == "" then Fail
      else if after[0] == ']' then Got(Item(head, NoItems), after[1..])
      else if after[0] != ',' then Fail
      else
        match ReadItems(after[1..])
        case Fail => Fail
        case Got(tail, rest) => Got(Item(head, tail), rest)
  }

  function ReadFields(s: string): (r: Read<Fields>)
    ensures r.Got? ==> |r.rest| < |s|
    decreases |s|, 1
  {
    if s == "" || s[0] != '"' then Fail
    else
      match ReadString(s[1..])
      case Fail => Fail
      case Got(key, colon) =>
        if colon == "" || colon[0] != ':' then Fail
        else
          match ReadValue(colon[1..])
          case Fail => Fail
          case Got(value, after) =>
            if after == "" then Fail
            else if after[0] == '}' then Got(Field(key, value, NoFields), after[1..])
            else if after[0] != ',' then Fail
            else
              match ReadFields(after[1..])
              case Fail => Fail
              case Got(others, rest) => Got(Field(key, value, others), rest)
  }

  // ------------------------------------------------------------------ round trip

  lemma Enclose(a: string, e: string, b: string, rest: string)
    ensures (a + (e + b)) + rest == a + (e + (b + rest))
  {
    Associate(e, b, rest);
    Associate(a, e + b, rest);
  }

  lemma QuotedUnfold(s: string, rest: string)
    ensures Quoted(s) + rest == ['"'] + (Escape(s) + ("\"" + rest))
  {
    Enclose("\"", Escape(s), "\"", rest);
  }

  lemma QuotedIsRead(s: string, rest: string, q: string)
    requires q == Quoted(s) + rest
    ensures q != "" && q[0] == '"' && ReadString(q[1..]) == Got(s, rest)
  {
    QuotedUnfold(s, rest);
    Behind('"', Escape(s) + ("\"" + rest));
    StringIsRead(s, rest);
  }

  lemma WordIsRead(word: string, j: Json, rest: string)
    requires word != ""
    ensures ReadWord(word, j, word + rest) == Got(j, rest) && (word + rest)[0] == word[0]
  {
    TakeDrop(word, rest);
  }

  lemma TextIsRead(t: string, rest: string)
    ensures ReadValue(Quoted(t) + rest) == Got(Str(t), rest)
  {
    QuotedIsRead(t, rest, Quoted(t) + rest);
  }

  lemma NumberIsRead(i: int, rest: string)
    requires NoDigit(rest)
    ensures ReadValue(ToString(i) + rest) == Got(Int(i), rest)
  {
    IntIsRead(i, rest);
    First(ToString(i), rest);
    NumberBegins(i);
  }

  lemma NumberBegins(i: int)
    ensures ToString(i)[0] == if i < 0 then '-' else Numeral(i)[0]
  {
  }

  lemma NullIsRead(rest: string)
    ensures ReadValue("null" + rest) == Got(Null, rest)
  {
    WordIsRead("null", Null, rest);
  }

  lemma TruthIsRead(b: bool, rest: string)
    ensures ReadValue((if b then "true" else "false") + rest) == Got(Bool(b), rest)
  {
    WordIsRead(if b then "true" else "false", Bool(b), rest);
  }

  lemma ScalarIsRead(j: Json, rest: string)
    requires NoDigit(rest) && !j.Arr? && !j.Obj?
    ensures ReadValue(Write(j) + rest) == Got(j, rest)
  {
    match j
    case Null => NullIsRead(rest);
    case Bool(b) => TruthIsRead(b, rest);
    case Int(i) => NumberIsRead(i, rest);
    case Str(t) => TextIsRead(t, rest);
  }

  lemma {:induction false} ValueIsRead(j: Json, rest: string)
    requires NoDigit(rest)
    ensures ReadValue(Write(j) + rest) == Got(j, rest)
    decreases j, 0
  {
    match j
    case Arr(items) => ArrayIsRead(items, rest);
    case Obj(fields) => ObjectIsRead(fields, rest);
    case _ => ScalarIsRead(j, rest);
  }

  /** No value begins like the end of a list. */
  lemma WriteBegins(j: Json)
    ensures Write(j) != "" && Write(j)[0] != ']' && Write(j)[0] != '}' && Write(j)[0] != ','
  {
    match j
    case Int(i) => NumberBegins(i);
    case _ =>
  }

  lemma ArrayOpens(inner: string)
    ensures ReadValue(['['] + inner) == ReadArray(inner)
  {
    Behind('[', inner);
  }

  lemma ObjectOpens(inner: string)
    ensures ReadValue(['{'] + inner) == ReadObject(inner)
  {
    Behind('{', inner);
  }

  lemma ArrayIsRead(items: Items, rest: string)
    requires NoDigit(rest)
    ensures ReadValue(Write(Arr(items)) + rest) == Got(Arr(items), rest)
    decreases items, 3
  {
    var inner := WriteItems(items, true) + ("]" + rest);
    Enclose("[", WriteItems(items, true), "]", rest);
    ArrayOpens(inner);
    ArrayInnerIsRead(items, rest, inner);
  }

  lemma ArrayInnerIsRead(items: Items, rest: string, inner: string)
    requires NoDigit(rest) && inner == WriteItems(items, true) + ("]" + rest)
    ensures ReadArray(inner) == Got(Arr(items), rest)
    decreases items, 2
  {
    match items
    case NoItems => Behind(']', rest);
    case Item(head, tail) =>
      WriteBegins(head);
      First(WriteItems(items, true), "]" + rest);
      First(Write(head), WriteItems(tail, false));
      ItemsAreRead(items, rest);
  }

  lemma LastItem(s: string, head: Json, rest: string)
    requires ReadValue(s) == Got(head, [']'] + rest)
    ensures ReadItems(s) == Got(Item(head, NoItems), rest)
  {
    Behind(']', rest);
  }

  lemma ItemAndMore(s: string, head: Json, more: string, tail: Items, rest: string)
    requires ReadValue(s) == Got(head, [','] + more) && ReadItems(more) == Got(tail, rest)
    ensures ReadItems(s) == Got(Item(head, tail), rest)
  {
    Behind(',', more);
  }

  lemma ItemsUnfold(head: Json, tail: Items, end: string)
    ensures WriteItems(Item(head, tail), true) + end == Write(head) + (WriteItems(tail, false) + end)
  {
    Enclose("", Write(head), WriteItems(tail, false), end);
  }

  lemma MoreItems(items: Items, end: string)
    ensures WriteItems(items, false) + end == if items.Item? then [','] + (WriteItems(items, true) + end) else end
  {
    if items.Item? {
      Associate(",", WriteItems(items, true), end);
    }
  }

  lemma {:induction false} ItemsAreRead(items: Items, rest: string)
    requires items.Item?
    ensures ReadItems(WriteItems(items, true) + ("]" + rest)) == Got(items, rest)
    decreases items, 1
  {
    var head, tail := items.head, items.tail;
    var after := WriteItems(tail, false) + ("]" + rest);
    ItemsUnfold(head, tail, "]" + rest);
    MoreItems(tail, "]" + rest);
    ValueIsRead(head, after);
    if tail == NoItems {
      LastItem(Write(head) + after, head, rest);
    } else {
      ItemsAreRead(tail, rest);
      ItemAndMore(Write(head) + after, head, WriteItems(tail, true) + ("]" + rest), tail, rest);
    }
  }

  lemma ObjectIsRead(fields: Fields, rest: string)
    ensures ReadValue(Write(Obj(fields)) + rest) == Got(Obj(fields), rest)
    decreases fields, 3
  {
    var inner := WriteFields(fields, true) + ("}" + rest);
    Enclose("{", WriteFields(fields, true), "}", rest);
    ObjectOpens(inner);
    ObjectInnerIsRead(fields, rest, inner);
  }

  lemma ObjectInnerIsRead(fields: Fields, rest: string, inner: string)
    requires inner == WriteFields(fields, true) + ("}" + rest)
    ensures ReadObject(inner) == Got(Obj(fields), rest)
    decreases fields, 2
  {
    match fields
    case NoFields => Behind('}', rest);
    case Field(key, value, others) =>
      First(WriteFields(fields, true), "}" + rest);
      FieldsAreRead(fields, rest);
  }

  /** A member up to its value, and what comes of the rest. */
  lemma LastField(s: string, key: string, colon: string, value: Json, rest: string)
    requires s != "" && s[0] == '"' && ReadString(s[1..]) == Got(key, [':'] + colon)
    requires ReadValue(colon) == Got(value, ['}'] + rest)
    ensures ReadFields(s) == Got(Field(key, value, NoFields), rest)
  {
    Behind(':', colon);
    Behind('}', rest);
  }

  lemma FieldAndMore(s: string, key: string, colon: string, value: Json, more: string, others: Fields, rest: string)
    requires s != "" && s[0] == '"' && ReadString(s[1..]) == Got(key, [':'] + colon)
    requires ReadValue(colon) == Got(value, [','] + more) && ReadFields(more) == Got(others, rest)
    ensures ReadFields(s) == Got(Field(key, value, others), rest)
  {
    Behind(':', colon);
    Behind(',', more);
  }

  lemma FieldUnfold(key: string, text: string, more: string, end: string)
    ensures (Quoted(key) + (":" + (text + more))) + end == Quoted(key) + ([':'] + (text + (more + end)))
  {
    Associate(text, more, end);
    Enclose(Quoted(key), ":", text + more, end);
  }

  lemma FieldsUnfold(key: string, value: Json, others: Fields, end: string)
    ensures WriteFields(Field(key, value, others), true) + end
         == Quoted(key) + ([':'] + (Write(value) + (WriteFields(others, false) + end)))
  {
    FieldUnfold(key, Write(value), WriteFields(others, false), end);
  }

  lemma MoreFields(fields: Fields, end: string)
    ensures WriteFields(fields, false) + end
         == if fields.Field? then [','] + (WriteFields(fields, true) + end) else end
  {
    if fields.Field? {
      Associate(",", WriteFields(fields, true), end);
    }
  }

  lemma {:induction false} FieldsAreRead(fields: Fields, rest: string)
    requires fields.Field?
    ensures ReadFields(WriteFields(fields, true) + ("}" + rest)) == Got(fields, rest)
    decreases fields, 1
  {
    var key, value, others := fields.key, fields.value, fields.rest;
    var after := WriteFields(others, false) + ("}" + rest);
    var colon := Write(value) + after;
    var s := Quoted(key) + ([':'] + colon);
    FieldsUnfold(key, value, others, "}" + rest);
    MoreFields(others, "}" + rest);
    QuotedIsRead(key, [':'] + colon, s);
    ValueIsRead(value, after);
    if others == NoFields {
      LastField(s, key, colon, value, rest);
    } else {
      FieldsAreRead(others, rest);
      FieldAndMore(s, key, colon, value, WriteFields(others, true) + ("}" + rest), others, rest);
    }
  }

  /** Every written value is read back, and nothing is left. */
  lemma WrittenIsRead(j: Json)
    ensures ReadValue(Write(j)) == Got(j, "")
  {
    ValueIsRead(j, "");
    assert Write(j) + "" == Write(j);
  }

  /** Different values are written differently. */
  lemma WriteInjective(i: Json, j: Json)
    requires Write(i) == Write(j)
    ensures i == j
  {
    WrittenIsRead(i);
    WrittenIsRead(j);
  }

  predicate Plain(c: char) {
    c as int >= 32 && c != '"' && c != '\\'
  }

  lemma PlainCharStays(c: char)
    requires Plain(c)
    ensures EscapeChar(c) == [c]
  {
  }

  /** Text without control characters, quotes and backslashes is written as it is. */
  lemma {:induction false} PlainTextStays(s: string)
    requires forall i :: 0 <= i < |s| ==> Plain(s[i])
    ensures Escape(s) == s
  {
    if s != "" {
      PlainCharStays(s[0]);
      PlainTextStays(s[1..]);
      HeadAndTail(s);
    }
  }

  lemma HeadAndTail(s: string)
    requires s != ""
    ensures [s[0]] + s[1..] == s
  {
  }

  /** A reader of messages. */
  function ReadMessage(text: string): Reading<Fields> {
    match ReadValue(text)
    case Got(Obj(fields), rest) => if rest == "" then Reading(true, Some(fields)) else Reading(false, None)
    case _ => Reading(false, None)
  }

  /** It understands everything that is written, as the peers of `RpcWire` ask of theirs. */
  lemma ReaderUnderstands(messages: seq<Fields>)
    ensures Understands(ReadMessage, messages)
  {
    forall i | 0 <= i < |messages|
      ensures ReadMessage(Write(Obj(messages[i]))) == Reading(true, Some(messages[i]))
    {
      WrittenIsRead(Obj(messages[i]));
    }
  }

  /** So messages with tame strings arrive whenever the reads lose no blanks, with nothing left to
      ask of the reader. */
  lemma MessagesAreRead(pieces: seq<string>, gaps: seq<string>, messages: seq<Fields>)
    requires |gaps| == |messages| + 1 && forall i :: 0 <= i < |gaps| ==> AllBlank(gaps[i])
    requires Joined(pieces) == Interleaved(gaps, Written(messages)) && Lossless(pieces)
    requires AllTame(messages)
    ensures JsonStream.Run(ReadMessage, pieces).values == messages
  {
    ReaderUnderstands(messages);
    StreamConveys(ReadMessage, pieces, gaps, messages);
  }
}
