/** JSON values and the compact text that `Json::FastWriter` makes of them (RFC 8259, sections 3 to
    7), and why the brace-counting scan of `JsonRpc` frames that text correctly. */
module JsonText {
  import opened Decimal
  import opened JsonFraming
  import opened JsonStream
  import opened Trim

  datatype Json =
    | Null
    | Bool(b: bool)
    | Int(i: int)
    | Str(s: string)
    | Arr(items: Items)
    | Obj(fields: Fields)

  datatype Items = NoItems | Item(head: Json, tail: Items)

  datatype Fields = NoFields | Field(key: string, value: Json, rest: Fields)

  // ------------------------------------------------------------------ writing

  function HexDigit(d: nat): char
    requires d < 16
  {
    if d < 10 then Digit(d) else ('A' as int + d - 10) as char
  }

  /** RFC 8259, section 7. */
  function EscapeChar(c: char): (r: string)
    ensures c != '"' ==> '"' !in r
  {
    match c
    case '"' => "\\\""
    case '\\' => "\\\\"
    case '\U{0008}' => "\\b"
    case '\U{000c}' => "\\f"
    case '\n' => "\\n"
    case '\r' => "\\r"
    case '\t' => "\\t"
    case _ => if c as int < 32 then "\\u00" + [HexDigit(c as int / 16), HexDigit(c as int % 16)] else [c]
  }

  function Escape(s: string): (r: string)
    ensures '"' !in s ==> '"' !in r
  {
    if s == "" then "" else EscapeChar(s[0]) + Escape(s[1..])
  }

  function Quoted(s: string): string {
    "\"" + (Escape(s) + "\"")
  }

  function Write(j: Json): string {
    match j
    case Null => "null"
    case Bool(b) => if b then "true" else "false"
    case Int(i) => ToString(i)
    case Str(s) => Quoted(s)
    case Arr(items) => "[" + (WriteItems(items, true) + "]")
    case Obj(fields) => "{" + (WriteFields(fields, true) + "}")
  }

  function WriteItems(items: Items, first: bool): string {
    match items
    case NoItems => ""
    case Item(head, tail) => (if first then "" else ",") + (Write(head) + WriteItems(tail, false))
  }

  function WriteFields(fields: Fields, first: bool): string {
    match fields
    case NoFields => ""
    case Field(key, value, rest) =>
      (if first then "" else ",") + (Quoted(key) + (":" + (Write(value) + WriteFields(rest, false))))
  }

  // ------------------------------------------------------------------ framing

  /** Behind an even number of double quotes, as the scan sees it, one is still inside the string:
      there braces do no harm. A string is tame if it has an even number of double quotes and all
      its braces are behind an even number of them. */
  predicate TameString(s: string) {
    Quotes(s) % 2 == 0 && forall i :: 0 <= i < |s| && (s[i] == '{' || s[i] == '}') ==> Quotes(s[..i]) % 2 == 0
  }

  /** All strings in the value, and all member names, are tame. */
  predicate Tame(j: Json) {
    match j
    case Str(s) => TameString(s)
    case Arr(items) => TameItems(items)
    case Obj(fields) => TameFields(fields)
    case _ => true
  }

  predicate TameItems(items: Items) {
    match items
    case NoItems => true
    case Item(head, tail) => Tame(head) && TameItems(tail)
  }

  predicate TameFields(fields: Fields) {
    match fields
    case NoFields => true
    case Field(key, value, rest) => TameString(key) && Tame(value) && TameFields(rest)
  }

  /** The scan passes over s and stands where it stood before. */
  predicate Passes(s: string, nesting: int) {
    FindEnd(s, Scan(false, nesting)) == Unfinished(Scan(false, nesting))
  }

  lemma PassesBoth(a: string, b: string, nesting: int)
    requires Passes(a, nesting) && Passes(b, nesting)
    ensures Passes(a + b, nesting)
  {
    FindEndResumes(a, b, Scan(false, nesting));
  }

  lemma {:induction false} QuotelessScan(s: string, st: Scan)
    requires '"' !in s && (st.inString || ('{' !in s && '}' !in s))
    ensures FindEnd(s, st) == Unfinished(st)
    decreases |s|
  {
    if s != "" {
      assert s[0] in s && forall c :: c in s[1..] ==> c in s;
      QuotelessScan(s[1..], st);
    }
  }

  /** The scan of one escaped character inside a printed string. */
  lemma EscapedCharScan(c: char, st: Scan)
    requires st.inString || (c != '{' && c != '}')
    ensures FindEnd(EscapeChar(c), st) == Unfinished(if c == '"' then st.(inString := !st.inString) else st)
  {
    if c == '"' {
      QuoteScan(st);
      assert "\\\""[1..] == "\"";
    } else {
      QuotelessScan(EscapeChar(c), st);
    }
  }

  /** The scan inside a printed string, with the first n characters behind it. */
  function InsideAt(s: string, n: nat, nesting: int): Scan
    requires n <= |s|
  {
    Scan(Quotes(s[..n]) % 2 == 0, nesting)
  }

  lemma InsideNext(s: string, n: nat, nesting: int)
    requires TameString(s) && n < |s|
    ensures FindEnd(EscapeChar(s[n]), InsideAt(s, n, nesting)) == Unfinished(InsideAt(s, n + 1, nesting))
  {
    QuotesSnoc(s, n);
    EscapedCharScan(s[n], InsideAt(s, n, nesting));
  }

  lemma ScansJoin(a: string, b: string, st: Scan, mid: Scan, end: Scan)
    requires FindEnd(a, st) == Unfinished(mid) && FindEnd(b, mid) == Unfinished(end)
    ensures FindEnd(a + b, st) == Unfinished(end)
  {
    FindEndResumes(a, b, st);
  }

  /** The scan of a printed string from its position n on. */
  lemma {:induction false} EscapedScan(s: string, n: nat, nesting: int)
    requires TameString(s) && n <= |s|
    ensures FindEnd(Escape(s[n..]), InsideAt(s, n, nesting)) == Unfinished(Scan(true, nesting))
    decreases |s| - n
  {
    if n == |s| {
      assert s[..n] == s && s[n..] == "";
    } else {
      InsideNext(s, n, nesting);
      EscapedScan(s, n + 1, nesting);
      EscapeFrom(s, n);
      ScansJoin(EscapeChar(s[n]), Escape(s[n + 1..]), InsideAt(s, n, nesting), InsideAt(s, n + 1, nesting),
                Scan(true, nesting));
    }
  }

  lemma EscapeFrom(s: string, n: nat)
    requires n < |s|
    ensures Escape(s[n..]) == EscapeChar(s[n]) + Escape(s[n + 1..])
  {
    assert s[n..][0] == s[n] && s[n..][1..] == s[n + 1..];
  }

  lemma QuotesSnoc(s: string, n: nat)
    requires n < |s|
    ensures Quotes(s[..n + 1]) == Quotes(s[..n]) + (if s[n] == '"' then 1 else 0)
  {
    assert s[..n + 1] == s[..n] + [s[n]];
    QuotesOfBoth(s[..n], [s[n]]);
    assert Quotes([s[n]]) == (if s[n] == '"' then 1 else 0) + Quotes([s[n]][1..]);
  }

  /** Whatever a tame string contains, it is passed over. */
  lemma QuotedPasses(s: string, nesting: int)
    requires TameString(s)
    ensures Passes(Quoted(s), nesting)
  {
    assert s[..0] == "" && s[0..] == s;
    EscapedScan(s, 0, nesting);
    EnclosedPasses(Escape(s), nesting);
  }

  lemma EnclosedPasses(e: string, nesting: int)
    requires FindEnd(e, Scan(true, nesting)) == Unfinished(Scan(true, nesting))
    ensures Passes("\"" + (e + "\""), nesting)
  {
    FindEndResumes(e, "\"", Scan(true, nesting));
    QuoteScan(Scan(true, nesting));
    var s := "\"" + (e + "\"");
    assert s[0] == '"' && s[1..] == e + "\"";
  }

  lemma QuoteScan(st: Scan)
    ensures FindEnd("\"", st) == Unfinished(st.(inString := !st.inString))
  {
    assert "\""[1..] == "";
  }

  lemma ToStringHasNoBraces(i: int)
    ensures '"' !in ToString(i) && '{' !in ToString(i) && '}' !in ToString(i)
  {
    var s := ToString(i);
    forall k | 0 <= k < |s| ensures s[k] == '-' || '0' <= s[k] <= '9' {
      if i < 0 {
        assert s == "-" + Numeral(-i);
      }
    }
  }

  lemma {:induction false} WritePasses(j: Json, nesting: int)
    requires Tame(j) && nesting >= 1
    ensures Passes(Write(j), nesting)
    decreases j
  {
    match j
    case Null => QuotelessScan("null", Scan(false, nesting));
    case Bool(b) => QuotelessScan(if b then "true" else "false", Scan(false, nesting));
    case Int(i) =>
      ToStringHasNoBraces(i);
      QuotelessScan(ToString(i), Scan(false, nesting));
    case Str(s) => QuotedPasses(s, nesting);
    case Arr(items) =>
      ItemsPass(items, true, nesting);
      Bracketed(WriteItems(items, true), nesting);
    case Obj(fields) =>
      FieldsPass(fields, true, nesting + 1);
      Braced(WriteFields(fields, true), nesting);
  }

  lemma Bracketed(inner: string, nesting: int)
    requires Passes(inner, nesting)
    ensures Passes("[" + (inner + "]"), nesting)
  {
    QuotelessScan("[", Scan(false, nesting));
    QuotelessScan("]", Scan(false, nesting));
    PassesBoth(inner, "]", nesting);
    PassesBoth("[", inner + "]", nesting);
  }

  lemma BraceScans(nesting: int)
    requires nesting >= 0
    ensures FindEnd("{", Scan(false, nesting)) == Unfinished(Scan(false, nesting + 1))
    ensures FindEnd("}", Scan(false, nesting + 1))
         == if nesting == 0 then Complete(1) else Unfinished(Scan(false, nesting))
  {
    assert "{"[1..] == "" && "}"[1..] == "";
  }

  /** Between its braces, what is passed over inside is one level down. */
  lemma Braced(inner: string, nesting: int)
    requires Passes(inner, nesting + 1) && nesting >= 0
    ensures var s := "{" + (inner + "}");
            FindEnd(s, Scan(false, nesting))
            == if nesting == 0 then Complete(|s|) else Unfinished(Scan(false, nesting))
  {
    BraceScans(nesting);
    FindEndResumes(inner, "}", Scan(false, nesting + 1));
    FindEndResumes("{", inner + "}", Scan(false, nesting));
  }

  lemma {:induction false} ItemsPass(items: Items, first: bool, nesting: int)
    requires TameItems(items) && nesting >= 1
    ensures Passes(WriteItems(items, first), nesting)
    decreases items
  {
    match items
    case NoItems =>
    case Item(head, tail) =>
      WritePasses(head, nesting);
      ItemsPass(tail, false, nesting);
      QuotelessScan(if first then "" else ",", Scan(false, nesting));
      PassesBoth(Write(head), WriteItems(tail, false), nesting);
      PassesBoth(if first then "" else ",", Write(head) + WriteItems(tail, false), nesting);
  }

  lemma {:induction false} FieldsPass(fields: Fields, first: bool, nesting: int)
    requires TameFields(fields) && nesting >= 1
    ensures Passes(WriteFields(fields, first), nesting)
    decreases fields
  {
    match fields
    case NoFields =>
    case Field(key, value, rest) =>
      var tail := Write(value) + WriteFields(rest, false);
      QuotedPasses(key, nesting);
      WritePasses(value, nesting);
      FieldsPass(rest, false, nesting);
      QuotelessScan(if first then "" else ",", Scan(false, nesting));
      QuotelessScan(":", Scan(false, nesting));
      PassesBoth(Write(value), WriteFields(rest, false), nesting);
      PassesBoth(":", tail, nesting);
      PassesBoth(Quoted(key), ":" + tail, nesting);
      PassesBoth(if first then "" else ",", Quoted(key) + (":" + tail), nesting);
  }

  /** Every object with tame strings, of any nesting, is cut off exactly at its end. */
  lemma WrittenObjectIsFrame(fields: Fields)
    requires TameFields(fields)
    ensures Frame(Write(Obj(fields)))
  {
    FieldsPass(fields, true, 1);
    BracedIsFrame(WriteFields(fields, true));
  }

  lemma BracedIsFrame(inner: string)
    requires Passes(inner, 1)
    ensures Frame("{" + (inner + "}"))
  {
    Braced(inner, 0);
  }

  // ----------------------------------------------------------- escaped quotes

  predicate Braceless(s: string) {
    '{' !in s && '}' !in s
  }

  /** No object and no brace in the value. */
  predicate Flat(j: Json) {
    match j
    case Str(s) => Braceless(s)
    case Arr(items) => FlatItems(items)
    case Obj(_) => false
    case _ => true
  }

  predicate FlatItems(items: Items) {
    match items
    case NoItems => true
    case Item(head, tail) => Flat(head) && FlatItems(tail)
  }

  predicate FlatFields(fields: Fields) {
    match fields
    case NoFields => true
    case Field(key, value, rest) => Braceless(key) && Flat(value) && FlatFields(rest)
  }

  /** The number of double quotes inside the strings of a value. */
  function InnerQuotes(j: Json): nat {
    match j
    case Str(s) => Quotes(s)
    case Arr(items) => InnerQuotesOfItems(items)
    case Obj(fields) => InnerQuotesOfFields(fields)
    case _ => 0
  }

  function InnerQuotesOfItems(items: Items): nat {
    match items
    case NoItems => 0
    case Item(head, tail) => InnerQuotes(head) + InnerQuotesOfItems(tail)
  }

  function InnerQuotesOfFields(fields: Fields): nat {
    match fields
    case NoFields => 0
    case Field(key, value, rest) => Quotes(key) + InnerQuotes(value) + InnerQuotesOfFields(rest)
  }

  /** s has no brace, and an even number of double quotes exactly if n is even. */
  predicate Parity(s: string, n: nat) {
    Braceless(s) && Quotes(s) % 2 == n % 2
  }

  lemma {:induction false} ParityOfBoth(a: string, m: nat, b: string, n: nat)
    requires Parity(a, m) && Parity(b, n)
    ensures Parity(a + b, m + n)
  {
    QuotesOfBoth(a, b);
  }

  lemma {:induction false} QuotesOfBoth(a: string, b: string)
    ensures Quotes(a + b) == Quotes(a) + Quotes(b)
  {
    if a == "" {
      assert a + b == b;
    } else {
      assert (a + b)[0] == a[0] && (a + b)[1..] == a[1..] + b;
      QuotesOfBoth(a[1..], b);
    }
  }

  lemma {:induction false} QuotelessParity(s: string)
    requires '"' !in s && Braceless(s)
    ensures Parity(s, 0)
  {
    if s != "" {
      assert s[0] in s && forall c :: c in s[1..] ==> c in s;
      QuotelessParity(s[1..]);
    }
  }

  lemma QuoteParity()
    ensures Parity("\"", 1) && Parity("\\\"", 1)
  {
    assert "\""[1..] == "" && "\\\""[1..] == "\"";
  }

  lemma EscapedCharParity(c: char)
    requires c != '{' && c != '}'
    ensures Parity(EscapeChar(c), if c == '"' then 1 else 0)
  {
    if c == '"' {
      QuoteParity();
    } else {
      QuotelessParity(EscapeChar(c));
    }
  }

  lemma BracelessTail(s: string)
    requires Braceless(s) && s != ""
    ensures s[0] != '{' && s[0] != '}' && Braceless(s[1..])
  {
    assert s[0] in s && forall c :: c in s[1..] ==> c in s;
  }

  lemma EscapeStepParity(c: char, later: string, n: nat)
    requires c != '{' && c != '}' && Parity(later, n)
    ensures Parity(EscapeChar(c) + later, (if c == '"' then 1 else 0) + n)
  {
    EscapedCharParity(c);
    ParityOfBoth(EscapeChar(c), if c == '"' then 1 else 0, later, n);
  }

  lemma {:induction false} EscapeParity(s: string)
    requires Braceless(s)
    ensures Parity(Escape(s), Quotes(s))
  {
    if s != "" {
      BracelessTail(s);
      EscapeParity(s[1..]);
      EscapeStepParity(s[0], Escape(s[1..]), Quotes(s[1..]));
    }
  }

  lemma Enclosed(s: string, n: nat, mark: string, k: nat)
    requires Parity(s, n) && Parity(mark, k)
    ensures Parity(mark + (s + mark), n)
  {
    ParityOfBoth(s, n, mark, k);
    ParityOfBoth(mark, k, s + mark, n + k);
    assert (n + 2 * k) % 2 == n % 2;
  }

  lemma QuotedParity(s: string)
    requires Braceless(s)
    ensures Parity(Quoted(s), Quotes(s))
  {
    EscapeParity(s);
    QuoteParity();
    Enclosed(Escape(s), Quotes(s), "\"", 1);
  }

  lemma {:induction false} WriteParity(j: Json)
    requires Flat(j)
    ensures Parity(Write(j), InnerQuotes(j))
    decreases j
  {
    match j
    case Null => QuotelessParity("null");
    case Bool(b) => QuotelessParity(if b then "true" else "false");
    case Int(i) =>
      ToStringHasNoBraces(i);
      QuotelessParity(ToString(i));
    case Str(s) => QuotedParity(s);
    case Arr(items) =>
      ItemsParity(items, true);
      QuotelessParity("[");
      QuotelessParity("]");
      ParityOfBoth(WriteItems(items, true), InnerQuotes(j), "]", 0);
      ParityOfBoth("[", 0, WriteItems(items, true) + "]", InnerQuotes(j));
  }

  lemma {:induction false} ItemsParity(items: Items, first: bool)
    requires FlatItems(items)
    ensures Parity(WriteItems(items, first), InnerQuotesOfItems(items))
    decreases items
  {
    match items
    case NoItems =>
    case Item(head, tail) =>
      var n, rest := InnerQuotesOfItems(items), WriteItems(tail, false);
      WriteParity(head);
      ItemsParity(tail, false);
      QuotelessParity(if first then "" else ",");
      ParityOfBoth(Write(head), InnerQuotes(head), rest, InnerQuotesOfItems(tail));
      ParityOfBoth(if first then "" else ",", 0, Write(head) + rest, n);
  }

  lemma ParityOfFour(a: string, b: string, k: nat, c: string, d: string, m: nat)
    requires Parity(a, 0) && Parity(b, k) && Parity(c, 0) && Parity(d, m)
    ensures Parity(a + (b + (c + d)), k + m)
  {
    ParityOfBoth(c, 0, d, m);
    ParityOfBoth(b, k, c + d, m);
    ParityOfBoth(a, 0, b + (c + d), k + m);
  }

  lemma MemberParity(first: bool, name: string, k: nat, value: string, m: nat, later: string, n: nat)
    requires Parity(name, k) && Parity(value, m) && Parity(later, n)
    ensures Parity((if first then "" else ",") + (name + (":" + (value + later))), k + m + n)
  {
    QuotelessParity(if first then "" else ",");
    QuotelessParity(":");
    ParityOfBoth(value, m, later, n);
    ParityOfFour(if first then "" else ",", name, k, ":", value + later, m + n);
  }

  lemma {:induction false} FieldsParity(fields: Fields, first: bool)
    requires FlatFields(fields)
    ensures Parity(WriteFields(fields, first), InnerQuotesOfFields(fields))
    decreases fields
  {
    match fields
    case NoFields =>
    case Field(key, value, rest) =>
      QuotedParity(key);
      WriteParity(value);
      FieldsParity(rest, false);
      MemberParity(first, Quoted(key), Quotes(key), Write(value), InnerQuotes(value),
                   WriteFields(rest, false), InnerQuotesOfFields(rest));
  }

  /** An object without nested objects, and without braces in its strings, is framed correctly if
      and only if its strings contain an even number of double quotes in all. */
  lemma FlatWrittenObjectIff(fields: Fields)
    requires FlatFields(fields)
    ensures Frame(Write(Obj(fields))) <==> InnerQuotesOfFields(fields) % 2 == 0
  {
    FieldsParity(fields, true);
    FlatObjectFramedIff(WriteFields(fields, true));
    Regroup(WriteFields(fields, true));
  }

  lemma Regroup(inner: string)
    ensures "{" + (inner + "}") == "{" + inner + "}"
  {
  }

  // ------------------------------------------------------------- no double quotes

  /** No string in the value, and no member name, contains a double quote. */
  predicate QuoteFree(j: Json) {
    match j
    case Str(s) => '"' !in s
    case Arr(items) => QuoteFreeItems(items)
    case Obj(fields) => QuoteFreeFields(fields)
    case _ => true
  }

  predicate QuoteFreeItems(items: Items) {
    match items
    case NoItems => true
    case Item(head, tail) => QuoteFree(head) && QuoteFreeItems(tail)
  }

  predicate QuoteFreeFields(fields: Fields) {
    match fields
    case NoFields => true
    case Field(key, value, rest) => '"' !in key && QuoteFree(value) && QuoteFreeFields(rest)
  }

  lemma {:induction false} NoQuotes(s: string)
    requires '"' !in s
    ensures Quotes(s) == 0
  {
    if s != "" {
      assert s[0] in s && forall c :: c in s[1..] ==> c in s;
      NoQuotes(s[1..]);
    }
  }

  lemma QuotelessIsTame(s: string)
    requires '"' !in s
    ensures TameString(s)
  {
    NoQuotes(s);
    forall i | 0 <= i < |s| ensures Quotes(s[..i]) == 0 {
      NoQuotes(s[..i]);
    }
  }

  lemma {:induction false} QuoteFreeIsTame(j: Json)
    requires QuoteFree(j)
    ensures Tame(j)
    decreases j
  {
    match j
    case Str(s) => QuotelessIsTame(s);
    case Arr(items) => QuoteFreeItemsAreTame(items);
    case Obj(fields) => QuoteFreeFieldsAreTame(fields);
    case _ =>
  }

  lemma {:induction false} QuoteFreeItemsAreTame(items: Items)
    requires QuoteFreeItems(items)
    ensures TameItems(items)
    decreases items
  {
    match items
    case NoItems =>
    case Item(head, tail) =>
      QuoteFreeIsTame(head);
      QuoteFreeItemsAreTame(tail);
  }

  /** Strings without double quotes are tame, whatever else is in them. */
  lemma {:induction false} QuoteFreeFieldsAreTame(fields: Fields)
    requires QuoteFreeFields(fields)
    ensures TameFields(fields)
    decreases fields
  {
    match fields
    case NoFields =>
    case Field(key, value, rest) =>
      QuotelessIsTame(key);
      QuoteFreeIsTame(value);
      QuoteFreeFieldsAreTame(rest);
  }

  // ------------------------------------------------------------------ streams

  function Written(objects: seq<Fields>): (texts: seq<string>)
    ensures |texts| == |objects| && forall i :: 0 <= i < |texts| ==> texts[i] == Write(Obj(objects[i]))
  {
    if objects == [] then [] else [Write(Obj(objects[0]))] + Written(objects[1..])
  }

  /** Objects written compactly, separated by blanks and delivered in any pieces: the reader is
      given exactly their texts, in order, if and only if each of them is framed and no read loses
      blanks. */
  lemma ObjectsArriveIff<V(!new)>(reader: string -> Reading<V>, pieces: seq<string>,
                                  gaps: seq<string>, objects: seq<Fields>)
    requires |gaps| == |objects| + 1
    requires forall i :: 0 <= i < |gaps| ==> AllBlank(gaps[i])
    requires Joined(pieces) == Interleaved(gaps, Written(objects)) && Accepted(reader, Written(objects))
    ensures Run(reader, pieces).texts == Written(objects)
       <==> (forall i :: 0 <= i < |objects| ==> Frame(Write(Obj(objects[i])))) && Lossless(pieces)
  {
    var texts := Written(objects);
    MessagesArriveIff(reader, pieces, gaps, texts);
    if AllFrames(texts) {
      assert forall i :: 0 <= i < |objects| ==> Frame(texts[i]);
    }
  }

  /** If all their strings are tame, this depends on the reads alone. */
  lemma TameObjectsArriveIff<V(!new)>(reader: string -> Reading<V>, pieces: seq<string>,
                                      gaps: seq<string>, objects: seq<Fields>)
    requires |gaps| == |objects| + 1
    requires forall i :: 0 <= i < |gaps| ==> AllBlank(gaps[i])
    requires forall i :: 0 <= i < |objects| ==> TameFields(objects[i])
    requires Joined(pieces) == Interleaved(gaps, Written(objects)) && Accepted(reader, Written(objects))
    ensures Run(reader, pieces).texts == Written(objects) <==> Lossless(pieces)
    ensures Lossless(pieces) ==>
              Run(reader, pieces) == Drained(Values(reader, Written(objects)), Written(objects), "")
  {
    forall i | 0 <= i < |objects| ensures Frame(Written(objects)[i]) {
      WrittenObjectIsFrame(objects[i]);
    }
    MessagesArriveIff(reader, pieces, gaps, Written(objects));
  }
}
