/** How `JsonRpc` cuts a stream of characters into JSON objects: a scan that counts braces outside
    strings, and a loop that trims the buffer, cuts one object off its front and hands the text to
    the JSON reader. */
module JsonFraming {
  import opened Bytes
  import opened Trim

  // ---------------------------------------------------------------- the scan

  datatype Scan = Scan(inString: bool, nesting: int)

  const OUTSIDE := Scan(false, 0)

  function Advance(st: Scan, c: char): Scan {
    if c == '"' then st.(inString := !st.inString)
    else if st.inString then st
    else if c == '{' then st.(nesting := st.nesting + 1)
    else if c == '}' then st.(nesting := st.nesting - 1)
    else st
  }

  datatype End = Complete(n: nat) | Negative | Unfinished(st: Scan)

  /** Where the message that s continues ends, when the scan stands at st. */
  function FindEnd(s: string, st: Scan): (e: End)
    ensures e.Complete? ==> 1 <= e.n <= |s| && s[e.n - 1] == '}'
  {
    if s == "" then Unfinished(st)
    else
      var next := Advance(st, s[0]);
      if s[0] == '}' && !st.inString && next.nesting < 0 then Negative
      else if s[0] == '}' && !st.inString && next.nesting == 0 then Complete(1)
      else Shifted(FindEnd(s[1..], next), 1)
  }

  function Shifted(e: End, k: nat): End {
    match e
    case Complete(n) => Complete(n + k)
    case other => other
  }

  /** A scan can be interrupted and resumed. */
  lemma {:induction false} FindEndResumes(a: string, b: string, st: Scan)
    ensures FindEnd(a + b, st)
         == match FindEnd(a, st) { case Unfinished(mid) => Shifted(FindEnd(b, mid), |a|) case other => other }
    decreases |a|
  {
    if a == "" {
      assert a + b == b;
    } else {
      FindEndResumes(a[1..], b, Advance(st, a[0]));
      assert (a + b)[0] == a[0];
      assert (a + b)[1..] == a[1..] + b;
    }
  }

  /** One step of the scan, at a position of the text. */
  lemma ScanStep(s: string, pos: nat, st: Scan)
    requires pos < |s|
    ensures var next := Advance(st, s[pos]);
            FindEnd(s[pos..], st)
            == if s[pos] == '}' && !st.inString && next.nesting < 0 then Negative
               else if s[pos] == '}' && !st.inString && next.nesting == 0 then Complete(1)
               else Shifted(FindEnd(s[pos + 1..], next), 1)
  {
    assert s[pos..][1..] == s[pos + 1..];
  }

  /** Once a brace is open, the scan never meets a brace too many. */
  lemma {:induction false} NeverNegative(s: string, st: Scan)
    requires st.nesting >= 1
    ensures FindEnd(s, st) != Negative
    ensures FindEnd(s, st).Unfinished? ==> FindEnd(s, st).st.nesting >= 1
    decreases |s|
  {
    if s == "" {
    } else if Advance(st, s[0]).nesting >= 1 {
      NeverNegative(s[1..], Advance(st, s[0]));
    }
  }

  /** The branch for a negative nesting level is dead: the scan starts at an opening brace. */
  lemma NegativeUnreachable(s: string)
    requires s != "" && s[0] == '{'
    ensures FindEnd(s, OUTSIDE) != Negative
    ensures FindEnd(s, OUTSIDE).Unfinished? ==> FindEnd(s, OUTSIDE).st.nesting >= 1
    ensures FindEnd(s, OUTSIDE).Complete? ==> FindEnd(s, OUTSIDE).n >= 2
  {
    NeverNegative(s[1..], Scan(false, 1));
  }

  /** Text without braces only flips the string flag, once per double quote. */
  lemma {:induction false} BraceFreeScan(s: string, st: Scan)
    requires '{' !in s && '}' !in s
    ensures FindEnd(s, st) == Unfinished(st.(inString := st.inString != (Quotes(s) % 2 == 1)))
    decreases |s|
  {
    if s == "" {
    } else {
      assert s[0] in s && forall c :: c in s[1..] ==> c in s;
      BraceFreeScan(s[1..], Advance(st, s[0]));
    }
  }

  function Quotes(s: string): nat {
    if s == "" then 0 else (if s[0] == '"' then 1 else 0) + Quotes(s[1..])
  }

  /** A text that is cut off exactly at its own end. */
  predicate Frame(m: string) {
    m != "" && m[0] == '{' && FindEnd(m, OUTSIDE) == Complete(|m|)
  }

  /** An object without nested objects and without braces in its strings is framed correctly if
      and only if the number of double quotes in it is even. A compactly printed object has two
      unescaped ones for each string; so what counts is the number of escaped ones. */
  lemma FlatObjectFramedIff(inner: string)
    requires '{' !in inner && '}' !in inner
    ensures Frame("{" + inner + "}") <==> Quotes(inner) % 2 == 0
  {
    var m := "{" + inner + "}";
    assert m[1..] == inner + "}";
    BraceFreeScan(inner, Scan(false, 1));
    var mid := Scan(Quotes(inner) % 2 == 1, 1);
    FindEndResumes(inner, "}", Scan(false, 1));
    assert "}"[1..] == "";
    assert FindEnd("}", mid) == if mid.inString then Unfinished(mid) else Complete(1);
  }

  /** With an odd number of them the message is never recognised as complete, whatever text
      without braces follows. */
  lemma OddQuotesNeverComplete(inner: string, more: string)
    requires '{' !in inner && '}' !in inner && '{' !in more && '}' !in more
    requires Quotes(inner) % 2 == 1
    ensures FindEnd("{" + (inner + ("}" + more)), OUTSIDE) == Unfinished(Scan(Quotes(more) % 2 == 0, 1))
  {
    var s := inner + ("}" + more);
    assert ("{" + s)[1..] == s;
    BraceFreeScan(inner, Scan(false, 1));
    FindEndResumes(inner, "}" + more, Scan(false, 1));
    assert ("}" + more)[1..] == more;
    BraceFreeScan(more, Scan(true, 1));
  }

  /** The object {"a":"\""} is not framed. */
  lemma EscapedQuoteBreaksFraming()
    ensures !Frame("{" + "\"a\":\"\\\"\"" + "}")
  {
    var inner := "\"a\":\"\\\"\"";
    assert Quotes(inner) == 5 by {
      assert Quotes("\\\"\"") == 2;
      assert inner[1..][1..] == "\":\"\\\"\"";
      assert inner[1..][1..][1..][1..][1..] == "\\\"\"";
    }
    FlatObjectFramedIff(inner);
  }

  // ----------------------------------------------------------- the read loop

  /** What `Json::Reader::parse` makes of a text. A text that is rejected can leave a value that
      is not null behind. */
  datatype Reading<+V> = Reading(ok: bool, value: Option<V>)

  /** What one call of `_parseJsonFromMsgBuffer` returns and leaves in the buffer, and the text
      it handed to the reader. */
  datatype Cut<+V> = Cut(value: Option<V>, texts: seq<string>, rest: string)

  function CutOne<V>(reader: string -> Reading<V>, s: string): (r: Cut<V>)
    ensures r.value.Some? ==> |r.rest| + 2 <= |s| && |r.texts| == 1
  {
    if s == "" || s[0] != '{' then Cut(None, [], "")
    else
      NegativeUnreachable(s);
      match FindEnd(s, OUTSIDE)
      case Negative => Cut(None, [], "")
      case Unfinished(_) => Cut(None, [], s)
      case Complete(n) =>
        var reading := reader(s[..n]);
        Cut(reading.value, [s[..n]], if reading.ok then s[n..] else "")
  }

  datatype Drained<+V> = Drained(values: seq<V>, texts: seq<string>, rest: string)

  /** The second loop of `_read`. */
  function Drain<V>(reader: string -> Reading<V>, b: string): Drained<V>
    decreases |b|
  {
    var s := TrimWhitespace(b);
    if s == "" then Drained([], [], "")
    else
      var c := CutOne(reader, s);
      if c.value.None? then Drained([], c.texts, c.rest)
      else
        var d := Drain(reader, c.rest);
        Drained([c.value.value] + d.values, c.texts + d.texts, d.rest)
  }

  lemma TrimBegins(s: string)
    requires Lead(s) < |s|
    ensures TrimWhitespace(s) != "" && TrimWhitespace(s)[0] == s[Lead(s)]
  {
    LeadFinds(s);
    LeadTrailDisjoint(s);
  }

  /** Behind a text without blanks at its ends, only the rest is trimmed. */
  lemma TrimBehind(m: string, more: string) returns (kept: string)
    requires m != "" && !IsBlank(m[0]) && !IsBlank(m[|m| - 1])
    ensures TrimWhitespace(m + more) == m + kept
  {
    var s := m + more;
    assert s[0] == m[0] && s[|m| - 1] == m[|m| - 1];
    LeadFinds(s);
    LeadTrailDisjoint(s);
    BehindLastNonBlankFinds(s, |s|);
    assert Lead(s) == 0;
    var end := |s| - Trail(s);
    assert end >= |m|;
    kept := s[|m|..end];
    assert TrimWhitespace(s) == s[..end] == m + kept;
  }

  /** Whatever is not blank and begins with another character than a brace is thrown away, with all
      that is behind it. */
  lemma StrayTextIsDropped<V>(reader: string -> Reading<V>, b: string)
    requires Lead(b) < |b| && b[Lead(b)] != '{'
    ensures Drain(reader, b) == Drained([], [], "")
  {
    TrimBegins(b);
  }

  /** So is what is behind an object that the reader rejects. */
  lemma RejectedTextIsDropped<V>(reader: string -> Reading<V>, m: string, more: string)
    requires Frame(m) && reader(m) == Reading(false, None)
    ensures Drain(reader, m + more) == Drained([], [m], "")
  {
    var kept := TrimBehind(m, more);
    FindEndResumes(m, kept, OUTSIDE);
    CutBehind(reader, m, kept);
  }

  lemma CutBehind<V>(reader: string -> Reading<V>, m: string, kept: string)
    requires Frame(m) && FindEnd(m + kept, OUTSIDE) == Complete(|m|)
    ensures CutOne(reader, m + kept)
         == Cut(reader(m).value, [m], if reader(m).ok then kept else "")
  {
    TakeDrop(m, kept);
  }

  class Buffer<V> {
    var msgBuffer: string
    /** Everything passed to `_processJsonMessage`. */
    var processed: seq<V>
    /** Every text passed to the JSON reader. */
    ghost var handed: seq<string>

    constructor ()
      ensures msgBuffer == "" && processed == [] && handed == []
    {
      msgBuffer, processed, handed := "", [], [];
    }

    /** The loop of `_parseJsonFromMsgBuffer`: the position behind the closing brace. */
    method MessageEnd() returns (end: Option<nat>)
      requires msgBuffer != "" && msgBuffer[0] == '{'
      ensures end.Some? ==> FindEnd(msgBuffer, OUTSIDE) == Complete(end.value)
      ensures end.None? ==> FindEnd(msgBuffer, OUTSIDE).Unfinished?
    {
      NegativeUnreachable(msgBuffer);
      var inString, nesting, pos := false, 0, 0;
      while pos < |msgBuffer|
        invariant pos <= |msgBuffer|
        invariant FindEnd(msgBuffer, OUTSIDE) == Shifted(FindEnd(msgBuffer[pos..], Scan(inString, nesting)), pos)
      {
        var c := msgBuffer[pos];
        ScanStep(msgBuffer, pos, Scan(inString, nesting));
        if c == '"' {
          inString := !inString;
        }
        if !inString {
          if c == '{' {
            nesting := nesting + 1;
          }
          if c == '}' {
            nesting := nesting - 1;
            if nesting < 0 {
              assert false;
            }
            if nesting == 0 {
              return Some(pos + 1);
            }
          }
        }
        pos := pos + 1;
      }
      return None;
    }

    /** `_parseJsonFromMsgBuffer`. */
    method ParseFromMsgBuffer(reader: string -> Reading<V>) returns (value: Option<V>)
      modifies this
      ensures var c := CutOne(reader, old(msgBuffer));
              value == c.value && msgBuffer == c.rest && handed == old(handed) + c.texts
      ensures processed == old(processed)
    {
      if msgBuffer == "" {
        return None;
      }
      if msgBuffer[0] != '{' {
        msgBuffer := "";
        return None;
      }
      var end := MessageEnd();
      if end.None? {
        return None;
      }
      var reading := reader(msgBuffer[..end.value]);
      handed := handed + [msgBuffer[..end.value]];
      if !reading.ok {
        msgBuffer := "";
        return reading.value;
      }
      if end.value >= |msgBuffer| {
        msgBuffer := "";
      } else {
        msgBuffer := msgBuffer[end.value..];
      }
      return reading.value;
    }

    /** `_read`, for the characters that arrived. */
    method Read(reader: string -> Reading<V>, piece: string)
      modifies this
      ensures var d := Drain(reader, old(msgBuffer) + piece);
              msgBuffer == d.rest && processed == old(processed) + d.values && handed == old(handed) + d.texts
    {
      msgBuffer := msgBuffer + piece;
      ghost var all := Drain(reader, msgBuffer);
      while true
        invariant var d := Drain(reader, msgBuffer);
                  d.rest == all.rest
                  && processed + d.values == old(processed) + all.values
                  && handed + d.texts == old(handed) + all.texts
        decreases |msgBuffer|
      {
        ghost var processed0, handed0 := processed, handed;
        ghost var d := Drain(reader, msgBuffer);
        msgBuffer := TrimWhitespace(msgBuffer);
        if msgBuffer == "" {
          break;
        }
        var value := ParseFromMsgBuffer(reader);
        if value.None? {
          break;
        }
        processed := processed + [value.value];
        ghost var later := Drain(reader, msgBuffer);
        Associate(processed0, [value.value], later.values);
        Associate(handed0, d.texts[..1], later.texts);
      }
    }
  }
}
