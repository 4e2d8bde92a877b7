/** What the read loop of `JsonRpc` extracts from a whole stream, read by read, compared with the
    splitting it is meant to perform. The two differ exactly when a read ends in blanks inside a
    message, because `trim_whitespace` is applied to the incomplete rest. */
module JsonStream {
  import opened Bytes
  import opened Trim
  import opened JsonFraming

  // ------------------------------------------------------- intended splitting

  function Skip(b: string): string {
    b[Lead(b)..]
  }

  predicate Opens(s: string) {
    s != "" && s[0] == '{'
  }

  datatype Parts = Parts(texts: seq<string>, rest: string)

  /** Blanks between messages are dropped; everything else is kept. */
  function Split(b: string): Parts
    decreases |b|
  {
    var t := Skip(b);
    if Opens(t) && FindEnd(t, OUTSIDE).Complete? then
      var n := FindEnd(t, OUTSIDE).n;
      var p := Split(t[n..]);
      Parts([t[..n]] + p.texts, p.rest)
    else Parts([], t)
  }

  /** The smallest number of blanks in front of a message of b, the unfinished one included. */
  function MinLead(b: string): nat
    decreases |b|
  {
    var t := Skip(b);
    if Opens(t) && FindEnd(t, OUTSIDE).Complete? then Min(Lead(b), MinLead(t[FindEnd(t, OUTSIDE).n..]))
    else Lead(b)
  }

  lemma SkipConcat(b: string, c: string)
    ensures Skip(b + c) == if AllBlank(b) then Skip(c) else Skip(b) + c
    ensures AllBlank(b) <==> Skip(b) == ""
    ensures Skip(b) != "" ==> !IsBlank(Skip(b)[0]) && Lead(Skip(b)) == 0
  {
    LeadFinds(b);
    LeadConcat(b, c);
    if AllBlank(b) {
      assert (b + c)[|b| + Lead(c)..] == c[Lead(c)..];
    } else {
      assert (b + c)[Lead(b)..] == b[Lead(b)..] + c;
    }
  }

  lemma LeadConcat(b: string, c: string)
    ensures Lead(b + c) == if AllBlank(b) then |b| + Lead(c) else Lead(b)
  {
    LeadFinds(b);
    LeadFinds(c);
    if !AllBlank(b) {
      LeadUnique(b + c, Lead(b));
    } else if AllBlank(c) {
      BlanksAreAllBlank(b + c);
    } else {
      LeadUnique(b + c, |b| + Lead(c));
    }
  }

  lemma SplitSkips(b: string)
    ensures Split(Skip(b)) == Split(b)
  {
    SkipConcat(b, "");
    assert Skip(b)[0..] == Skip(b);
    if Skip(b) != "" {
      assert Skip(Skip(b)) == Skip(b);
    }
  }

  /** Splitting can be interrupted anywhere and resumed with the unfinished rest. */
  lemma {:induction false} SplitResumes(b: string, c: string)
    ensures var p := Split(b);
            var q := Split(p.rest + c);
            Split(b + c) == Parts(p.texts + q.texts, q.rest)
    decreases |b|
  {
    var t := Skip(b);
    SkipConcat(b, c);
    FindEndResumes(t, c, OUTSIDE);
    if t == "" {
      assert Split(b).rest + c == c;
      SplitSkips(b + c);
      SplitSkips(c);
      EmptyFirst(Split(c).texts);
    } else if Opens(t) && FindEnd(t, OUTSIDE).Complete? {
      var n := FindEnd(t, OUTSIDE).n;
      Extended(t, c, n);
      SplitResumes(t[n..], c);
      Associate([t[..n]], Split(t[n..]).texts, Split(Split(t[n..]).rest + c).texts);
    } else {
      SplitSkips(b + c);
      EmptyFirst(Split(t + c).texts);
    }
  }

  lemma EmptyFirst<T>(s: seq<T>)
    ensures [] + s == s
  {
  }

  // ------------------------------------------------- one call of the read loop

  /** b with at most k of its trailing blanks. */
  function Kept(b: string, k: nat): string {
    b[..|b| - (Trail(b) - Min(k, Trail(b)))]
  }

  lemma KeptEnds(b: string, k: nat)
    requires !AllBlank(b)
    ensures var r := Kept(b, k);
            Lead(b) + Trail(b) < |b| && !AllBlank(r) && Lead(r) == Lead(b) && Trail(r) == Min(k, Trail(b))
  {
    LeadTrailDisjoint(b);
    LeadFinds(b);
    TrailFinds(b);
    var r := Kept(b, k);
    assert forall i :: 0 <= i < |r| ==> r[i] == b[i];
    LeadUnique(r, Lead(b));
    TrailUnique(r, Min(k, Trail(b)));
  }

  lemma TrailOfSuffix(b: string, i: nat)
    requires i < |b| - Trail(b)
    ensures Trail(b[i..]) == Trail(b)
  {
    TrailFinds(b);
    TrailUnique(b[i..], Trail(b));
  }

  lemma TakeOfTake<T>(s: seq<T>, x: nat, l: nat, y: nat)
    requires l <= y <= x <= |s|
    ensures s[..x][l..y] == s[l..][..y - l]
  {
  }

  lemma KeptForms(b: string, l: nat, t: nat, k: nat)
    requires Lead(b) == l && Trail(b) == t && l + t < |b| && Trail(Skip(b)) == t
    ensures Kept(b, k) == b[..|b| - (t - Min(k, t))]
    ensures Kept(Skip(b), Min(k, l)) == b[l..][..|b| - l - (t - Min(Min(k, l), t))]
  {
  }

  lemma TrimKeptForm(b: string, l: nat, t: nat, k: nat)
    requires !AllBlank(b) && Lead(b) == l && Trail(b) == t && l + t < |b| && Trail(Skip(b)) == t
    ensures TrimWhitespace(Kept(b, k)) == b[l..][..|b| - l - (t - Min(Min(k, l), t))]
  {
    KeptEnds(b, k);
    TrimIsSlice(Kept(b, k), l, Min(k, t));
    KeptForms(b, l, t, k);
    TakeOfTake(b, |b| - (t - Min(k, t)), l, |b| - (t - Min(Min(k, l), t)));
  }

  /** Trimming a buffer that has lost trailing blanks already loses some more. */
  lemma TrimKept(b: string, k: nat)
    requires !AllBlank(b)
    ensures TrimWhitespace(Kept(b, k)) == Kept(Skip(b), Min(k, Lead(b)))
  {
    var l, t := Lead(b), Trail(b);
    LeadTrailDisjoint(b);
    TrailOfSuffix(b, l);
    TrimKeptForm(b, l, t, k);
    KeptForms(b, l, t, k);
  }

  lemma {:induction false} BlankScan(w: string, st: Scan)
    requires forall i :: 0 <= i < |w| ==> IsBlank(w[i])
    ensures FindEnd(w, st) == Unfinished(st)
    decreases |w|
  {
    if w != "" {
      BlankScan(w[1..], st);
    }
  }

  /** The scan does not see which trailing blanks are there. */
  lemma ScanOfKept(t: string, k: nat)
    ensures FindEnd(Kept(t, k), OUTSIDE) == FindEnd(t, OUTSIDE)
  {
    var r := Kept(t, k);
    var w := t[|r|..];
    assert t == r + w;
    TrailFinds(t);
    FindEndResumes(r, w, OUTSIDE);
    match FindEnd(r, OUTSIDE)
    case Unfinished(mid) => BlankScan(w, mid);
    case _ =>
  }

  /** Cutting a message off the front leaves the trailing blanks alone. */
  lemma CutOfKept(t: string, k: nat, n: nat)
    requires 0 < n <= |t| && !IsBlank(t[n - 1])
    ensures n <= |Kept(t, k)| && Kept(t, k)[..n] == t[..n]
    ensures Kept(t, k)[n..] == Kept(t[n..], k)
  {
    TrailFinds(t);
    if n < |t| - Trail(t) {
      TrailOfSuffix(t, n);
    } else {
      BlanksAreAllBlank(t[n..]);
    }
  }

  ghost predicate Accepted<V(!new)>(reader: string -> Reading<V>, texts: seq<string>) {
    forall i :: 0 <= i < |texts| ==> reader(texts[i]).ok && reader(texts[i]).value.Some?
  }

  function Values<V>(reader: string -> Reading<V>, texts: seq<string>): (r: seq<V>)
    requires forall i :: 0 <= i < |texts| ==> reader(texts[i]).value.Some?
    ensures |r| == |texts|
  {
    if texts == [] then [] else [reader(texts[0]).value.value] + Values(reader, texts[1..])
  }

  /** The result for a buffer that is trimmed to s, once the reader accepts the first message. */
  lemma DrainStep<V>(reader: string -> Reading<V>, b: string, s: string)
    requires TrimWhitespace(b) == s && Opens(s)
    ensures FindEnd(s, OUTSIDE).Unfinished? ==> Drain(reader, b) == Drained([], [], s)
    ensures FindEnd(s, OUTSIDE).Complete? ==>
              var n := FindEnd(s, OUTSIDE).n;
              reader(s[..n]).ok && reader(s[..n]).value.Some? ==>
                var d := Drain(reader, s[n..]);
                Drain(reader, b) == Drained([reader(s[..n]).value.value] + d.values, [s[..n]] + d.texts, d.rest)
  {
  }

  /** A message is found and cut off the trimmed buffer as it would be without trimming its end. */
  lemma TrimmedCut(b: string, k: nat)
    requires Opens(Skip(b))
    ensures var t, j := Skip(b), Min(k, Lead(b));
            && TrimWhitespace(Kept(b, k)) == Kept(t, j)
            && Opens(Kept(t, j))
            && FindEnd(Kept(t, j), OUTSIDE) == FindEnd(t, OUTSIDE)
            && (FindEnd(t, OUTSIDE).Complete? ==>
                  var n := FindEnd(t, OUTSIDE).n;
                  n <= |Kept(t, j)| && Kept(t, j)[..n] == t[..n] && Kept(t, j)[n..] == Kept(t[n..], j))
  {
    var t, j := Skip(b), Min(k, Lead(b));
    SkipConcat(b, "");
    TrimKept(b, k);
    ScanOfKept(t, j);
    KeptEnds(t, j);
    if FindEnd(t, OUTSIDE).Complete? {
      CutOfKept(t, j, FindEnd(t, OUTSIDE).n);
    }
  }

  lemma SplitStep(b: string)
    ensures var t := Skip(b);
            if Opens(t) && FindEnd(t, OUTSIDE).Complete? then
              var n := FindEnd(t, OUTSIDE).n;
              Split(b) == Parts([t[..n]] + Split(t[n..]).texts, Split(t[n..]).rest)
              && MinLead(b) == Min(Lead(b), MinLead(t[n..]))
            else Split(b) == Parts([], t) && MinLead(b) == Lead(b)
  {
  }

  /** What the loop makes of a buffer that has at most k trailing blanks left: the intended texts,
      and the intended rest short of the trailing blanks beyond k and beyond the smallest number
      of blanks in front of a message. */
  lemma {:induction false} DrainOfKept<V(!new)>(reader: string -> Reading<V>, b: string, k: nat)
    requires Accepted(reader, Split(b).texts) && Proper(Split(b))
    ensures Drain(reader, Kept(b, k))
         == Drained(Values(reader, Split(b).texts), Split(b).texts, Kept(Split(b).rest, Min(k, MinLead(b))))
    decreases |b|
  {
    SplitStep(b);
    if Skip(b) == "" {
      DrainOfBlank(reader, b, k);
    } else {
      var t, j := Skip(b), Min(k, Lead(b));
      TrimmedCut(b, k);
      NegativeUnreachable(t);
      DrainStep(reader, Kept(b, k), Kept(t, j));
      if FindEnd(t, OUTSIDE).Complete? {
        var n := FindEnd(t, OUTSIDE).n;
        AcceptedRest(reader, t[..n], Split(t[n..]).texts);
        DrainOfKept(reader, t[n..], j);
      }
    }
  }

  lemma DrainOfBlank<V>(reader: string -> Reading<V>, b: string, k: nat)
    requires Skip(b) == ""
    ensures Drain(reader, Kept(b, k)) == Drained([], [], "")
  {
    LeadFinds(b);
    BlanksAreAllBlank(Kept(b, k));
  }

  lemma DrainOfAll<V(!new)>(reader: string -> Reading<V>, b: string)
    requires Accepted(reader, Split(b).texts) && Proper(Split(b))
    ensures Drain(reader, b)
         == Drained(Values(reader, Split(b).texts), Split(b).texts, Kept(Split(b).rest, MinLead(b)))
  {
    KeptAll(b, |b|);
    DrainOfKept(reader, b, |b|);
    MinLeadBound(b);
  }

  lemma {:induction false} MinLeadBound(b: string)
    ensures MinLead(b) <= |b|
  {
  }

  lemma AcceptedRest<V(!new)>(reader: string -> Reading<V>, text: string, texts: seq<string>)
    requires Accepted(reader, [text] + texts)
    ensures reader(text).ok && reader(text).value.Some? && Accepted(reader, texts)
    ensures Values(reader, [text] + texts) == [reader(text).value.value] + Values(reader, texts)
  {
    assert ([text] + texts)[0] == text && ([text] + texts)[1..] == texts;
    assert forall i :: 0 <= i < |texts| ==> ([text] + texts)[i + 1] == texts[i];
  }

  // ------------------------------------------------------- a whole connection

  /** What was processed and handed to the reader so far, and what is left in the buffer, after
      `_read` has been called once for each piece. */
  function Run<V>(reader: string -> Reading<V>, pieces: seq<string>): Drained<V> {
    if pieces == [] then Drained([], [], "")
    else
      var r := Run(reader, pieces[..|pieces| - 1]);
      var d := Drain(reader, r.rest + pieces[|pieces| - 1]);
      Drained(r.values + d.values, r.texts + d.texts, d.rest)
  }

  function Joined(pieces: seq<string>): string {
    if pieces == [] then "" else Joined(pieces[..|pieces| - 1]) + pieces[|pieces| - 1]
  }

  /** No read ends in more blanks inside a message than there are in front of each of the messages
      that the read loop sees in that call. */
  predicate Lossless(pieces: seq<string>) {
    pieces == []
    || (Lossless(pieces[..|pieces| - 1])
        && KeepsBlanks(Split(Joined(pieces[..|pieces| - 1])).rest + pieces[|pieces| - 1]))
  }

  predicate KeepsBlanks(b: string) {
    Trail(Split(b).rest) <= MinLead(b)
  }

  lemma AcceptedParts<V(!new)>(reader: string -> Reading<V>, a: seq<string>, b: seq<string>)
    requires Accepted(reader, a + b)
    ensures Accepted(reader, a) && Accepted(reader, b)
    ensures Values(reader, a + b) == Values(reader, a) + Values(reader, b)
    decreases |a|
  {
    if a == [] {
      assert a + b == b;
    } else {
      assert a + b == [a[0]] + (a[1..] + b) && a == [a[0]] + a[1..];
      AcceptedRest(reader, a[0], a[1..] + b);
      AcceptedParts(reader, a[1..], b);
    }
  }

  /** A stream that ends up in messages, with at most the beginning of another one behind them. */
  predicate Proper(p: Parts) {
    p.rest == "" || Opens(p.rest)
  }

  lemma UnopenedStays(r: string, c: string)
    requires r != "" && !Opens(r) && Lead(r) == 0
    ensures Split(r + c) == Parts([], r + c)
  {
    SkipConcat(r, c);
    assert r[0..] == r && (r + c)[0] == r[0];
  }

  lemma UnopenedRest(b: string, c: string)
    requires !Proper(Split(b))
    ensures !Proper(Split(Split(b).rest + c))
  {
    var r := Split(b).rest;
    RestIsSkipped(b);
    UnopenedStays(r, c);
    assert Split(r + c).rest[0] == r[0];
  }

  lemma ProperPrefix(b: string, c: string)
    requires Proper(Split(b + c))
    ensures Proper(Split(b)) && Proper(Split(Split(b).rest + c))
  {
    SplitResumes(b, c);
    if !Proper(Split(b)) {
      UnopenedRest(b, c);
    }
  }

  lemma {:induction false} RestIsSkipped(b: string)
    ensures var r := Split(b).rest;
            r != "" ==> Lead(r) == 0 && (Opens(r) ==> FindEnd(r, OUTSIDE).Unfinished?)
    decreases |b|
  {
    var t := Skip(b);
    SkipConcat(b, "");
    if Opens(t) {
      NegativeUnreachable(t);
      if FindEnd(t, OUTSIDE).Complete? {
        RestIsSkipped(t[FindEnd(t, OUTSIDE).n..]);
      }
    }
  }

  /** Keeping k trailing blanks keeps all of them if there are no more. */
  lemma KeptAll(b: string, k: nat)
    ensures Kept(b, k) == b <==> Trail(b) <= k
    ensures Trail(b) <= k || |Kept(b, k)| < |b|
  {
  }

  /** If no read loses blanks, the loop extracts what it is meant to extract. */
  lemma {:induction false} LosslessRun<V(!new)>(reader: string -> Reading<V>, pieces: seq<string>)
    requires Accepted(reader, Split(Joined(pieces)).texts) && Proper(Split(Joined(pieces))) && Lossless(pieces)
    ensures var p := Split(Joined(pieces));
            Run(reader, pieces) == Drained(Values(reader, p.texts), p.texts, p.rest)
  {
    if pieces == [] {
    } else {
      var before, piece := pieces[..|pieces| - 1], pieces[|pieces| - 1];
      var b := Split(Joined(before)).rest + piece;
      ProperPrefix(Joined(before), piece);
      SplitResumes(Joined(before), piece);
      AcceptedParts(reader, Split(Joined(before)).texts, Split(b).texts);
      LosslessRun(reader, before);
      DrainOfAll(reader, b);
      KeptAll(Split(b).rest, MinLead(b));
    }
  }

  /** u is a beginning of a message that is shorter than it should be, although the scan behind it
      stands where it should. */
  ghost predicate Short(u: string, v: string) {
    Opens(u) && Opens(v) && |u| < |v|
    && FindEnd(u, OUTSIDE).Unfinished? && FindEnd(u, OUTSIDE) == FindEnd(v, OUTSIDE)
  }

  /** The run has gone wrong for good: a text differs, or the one that is still coming in will. */
  ghost predicate Wrong<V>(r: Drained<V>, p: Parts) {
    (exists i :: 0 <= i < |r.texts| && i < |p.texts| && r.texts[i] != p.texts[i])
    || (r.texts == p.texts && Short(r.rest, p.rest))
  }

  lemma KeptIsShort(rest: string, k: nat)
    requires Opens(rest) && FindEnd(rest, OUTSIDE).Unfinished? && k < Trail(rest)
    ensures Short(Kept(rest, k), rest)
  {
    KeptAll(rest, k);
    ScanOfKept(rest, k);
    KeptEnds(rest, k);
  }

  lemma LostIsShort(b: string)
    requires Proper(Split(b)) && !KeepsBlanks(b)
    ensures Short(Kept(Split(b).rest, MinLead(b)), Split(b).rest)
  {
    RestIsSkipped(b);
    assert Split(b).rest != "";
    KeptIsShort(Split(b).rest, MinLead(b));
  }

  lemma FirstLoss<V(!new)>(reader: string -> Reading<V>, b: string)
    requires Accepted(reader, Split(b).texts) && Proper(Split(b)) && !KeepsBlanks(b)
    ensures Drain(reader, b).texts == Split(b).texts && Short(Drain(reader, b).rest, Split(b).rest)
  {
    DrainOfAll(reader, b);
    LostIsShort(b);
  }

  /** A message that started too short ends too short. */
  lemma ShortStays<V(!new)>(reader: string -> Reading<V>, u: string, v: string, piece: string)
    requires Short(u, v)
    ensures var d, q := Drain(reader, u + piece), Split(v + piece);
            if d.texts == [] then q.texts == [] && Short(d.rest, q.rest)
            else q.texts != [] && d.texts[0] != q.texts[0]
  {
    var mid := FindEnd(u, OUTSIDE).st;
    NegativeUnreachable(u);
    NeverNegative(piece, mid);
    FindEndResumes(u, piece, OUTSIDE);
    FindEndResumes(v, piece, OUTSIDE);
    FirstText(reader, u + piece);
    FirstPart(v + piece);
  }

  lemma TrimOpen(s: string)
    requires Opens(s)
    ensures TrimWhitespace(s) == Kept(s, 0) && Opens(Kept(s, 0)) && |Kept(s, 0)| <= |s|
    ensures FindEnd(Kept(s, 0), OUTSIDE) == FindEnd(s, OUTSIDE)
    ensures FindEnd(s, OUTSIDE).Complete? ==>
              FindEnd(s, OUTSIDE).n <= |Kept(s, 0)| && Kept(s, 0)[..FindEnd(s, OUTSIDE).n] == s[..FindEnd(s, OUTSIDE).n]
  {
    assert Lead(s) == 0 && s[0..] == s;
    KeptAll(s, |s|);
    TrimmedCut(s, |s|);
  }

  /** The first text that the loop hands to the reader. */
  lemma FirstText<V(!new)>(reader: string -> Reading<V>, s: string)
    requires Opens(s)
    ensures var d, e := Drain(reader, s), FindEnd(s, OUTSIDE);
            && (e.Complete? ==> d.texts != [] && d.texts[0] == s[..e.n])
            && (e.Unfinished? ==> d.texts == [] && Opens(d.rest) && |d.rest| <= |s| && FindEnd(d.rest, OUTSIDE) == e)
  {
    TrimOpen(s);
    FirstCut(reader, s, Kept(s, 0));
  }

  lemma FirstCut<V>(reader: string -> Reading<V>, b: string, s: string)
    requires TrimWhitespace(b) == s && Opens(s)
    ensures var d, e := Drain(reader, b), FindEnd(s, OUTSIDE);
            && (e.Complete? ==> d.texts != [] && d.texts[0] == s[..e.n])
            && (e.Unfinished? ==> d.texts == [] && d.rest == s)
  {
  }

  lemma FirstPart(s: string)
    requires Opens(s)
    ensures var e := FindEnd(s, OUTSIDE);
            if e.Complete? then Split(s).texts != [] && Split(s).texts[0] == s[..e.n]
            else Split(s) == Parts([], s)
  {
    assert Lead(s) == 0 && s[0..] == s;
  }

  lemma StaysWrong<V(!new)>(reader: string -> Reading<V>, r: Drained<V>, p: Parts, piece: string)
    requires Wrong(r, p)
    ensures var d, q := Drain(reader, r.rest + piece), Split(p.rest + piece);
            Wrong(Drained(r.values + d.values, r.texts + d.texts, d.rest), Parts(p.texts + q.texts, q.rest))
  {
    var d, q := Drain(reader, r.rest + piece), Split(p.rest + piece);
    if i :| 0 <= i < |r.texts| && i < |p.texts| && r.texts[i] != p.texts[i] {
      assert (r.texts + d.texts)[i] != (p.texts + q.texts)[i];
    } else {
      ShortStays(reader, r.rest, p.rest, piece);
      if d.texts != [] {
        var i := |r.texts|;
        assert (r.texts + d.texts)[i] == d.texts[0] && (p.texts + q.texts)[i] == q.texts[0];
      }
    }
  }

  lemma {:induction false} LossyRun<V(!new)>(reader: string -> Reading<V>, pieces: seq<string>)
    requires Accepted(reader, Split(Joined(pieces)).texts) && Proper(Split(Joined(pieces))) && !Lossless(pieces)
    ensures Wrong(Run(reader, pieces), Split(Joined(pieces)))
  {
    var before, piece := pieces[..|pieces| - 1], pieces[|pieces| - 1];
    var b := Split(Joined(before)).rest + piece;
    ProperPrefix(Joined(before), piece);
    SplitResumes(Joined(before), piece);
    AcceptedParts(reader, Split(Joined(before)).texts, Split(b).texts);
    if Lossless(before) {
      LosslessRun(reader, before);
      FirstLoss(reader, b);
    } else {
      LossyRun(reader, before);
      StaysWrong(reader, Run(reader, before), Split(Joined(before)), piece);
    }
  }

  /** A stream of complete messages, all of which the reader accepts, is handed to the reader text
      by text if and only if no read loses blanks. */
  lemma ExactIffLossless<V(!new)>(reader: string -> Reading<V>, pieces: seq<string>)
    requires Accepted(reader, Split(Joined(pieces)).texts) && Split(Joined(pieces)).rest == ""
    ensures Run(reader, pieces).texts == Split(Joined(pieces)).texts <==> Lossless(pieces)
    ensures Lossless(pieces) ==>
              Run(reader, pieces)
              == Drained(Values(reader, Split(Joined(pieces)).texts), Split(Joined(pieces)).texts, "")
  {
    if Lossless(pieces) {
      LosslessRun(reader, pieces);
    } else {
      LossyRun(reader, pieces);
    }
  }

  /** Nothing is lost if no read ends in a blank inside an unfinished message. */
  lemma {:induction false} NoBlankAtBoundary(pieces: seq<string>)
    requires forall k :: 0 <= k <= |pieces| ==> Trail(Split(Joined(pieces[..k])).rest) == 0
    ensures Lossless(pieces)
  {
    if pieces != [] {
      var n := |pieces| - 1;
      forall k | 0 <= k <= n ensures Trail(Split(Joined(pieces[..n][..k])).rest) == 0 {
        assert pieces[..n][..k] == pieces[..k];
      }
      NoBlankAtBoundary(pieces[..n]);
      SplitResumes(Joined(pieces[..n]), pieces[n]);
      assert pieces[..|pieces|] == pieces;
    }
  }

  // ------------------------------------------------------ messages and blanks

  /** Messages, each behind a gap, and a last gap. */
  function Interleaved(gaps: seq<string>, messages: seq<string>): string
    requires |gaps| == |messages| + 1
  {
    if messages == [] then gaps[0] else gaps[0] + (messages[0] + Interleaved(gaps[1..], messages[1..]))
  }

  lemma SplitFrame(gap: string, m: string, later: string)
    requires AllBlank(gap) && Frame(m)
    ensures var p := Split(later);
            Split(gap + (m + later)) == Parts([m] + p.texts, p.rest)
  {
    SkipConcat(gap, m + later);
    assert Lead(m + later) == 0 && (m + later)[0..] == m + later;
    FindEndResumes(m, later, OUTSIDE);
    TakeDrop(m, later);
  }

  lemma {:induction false} SplitOfMessages(gaps: seq<string>, messages: seq<string>)
    requires |gaps| == |messages| + 1
    requires forall i :: 0 <= i < |gaps| ==> AllBlank(gaps[i])
    requires forall i :: 0 <= i < |messages| ==> Frame(messages[i])
    ensures Split(Interleaved(gaps, messages)) == Parts(messages, "")
  {
    if messages == [] {
      assert AllBlank(gaps[0]) && Skip(gaps[0]) == "";
    } else {
      SplitOfMessages(gaps[1..], messages[1..]);
      SplitFrame(gaps[0], messages[0], Interleaved(gaps[1..], messages[1..]));
      assert [messages[0]] + messages[1..] == messages;
    }
  }

  /** Whatever the loop hands to the reader is framed. */
  lemma CutIsFrame(s: string)
    requires Opens(s) && FindEnd(s, OUTSIDE).Complete?
    ensures Frame(s[..FindEnd(s, OUTSIDE).n])
  {
    var n := FindEnd(s, OUTSIDE).n;
    CutScan(s[..n], s[n..], s);
    assert s[..n][0] == s[0];
  }

  lemma CutScan(a: string, b: string, s: string)
    requires s == a + b && FindEnd(s, OUTSIDE) == Complete(|a|)
    ensures FindEnd(a, OUTSIDE) == Complete(|a|)
  {
    FindEndResumes(a, b, OUTSIDE);
  }

  predicate AllFrames(texts: seq<string>) {
    forall i :: 0 <= i < |texts| ==> Frame(texts[i])
  }

  lemma CutHandsFrames<V>(reader: string -> Reading<V>, s: string)
    ensures AllFrames(CutOne(reader, s).texts)
  {
    if Opens(s) {
      NegativeUnreachable(s);
      if FindEnd(s, OUTSIDE).Complete? {
        CutIsFrame(s);
      }
    }
  }

  lemma FramesOfBoth(a: seq<string>, b: seq<string>)
    requires AllFrames(a) && AllFrames(b)
    ensures AllFrames(a + b)
  {
  }

  lemma {:induction false} DrainHandsFrames<V>(reader: string -> Reading<V>, b: string)
    ensures AllFrames(Drain(reader, b).texts)
    decreases |b|
  {
    var s := TrimWhitespace(b);
    var c := CutOne(reader, s);
    CutHandsFrames(reader, s);
    if c.value.Some? {
      DrainHandsFrames(reader, c.rest);
      FramesOfBoth(c.texts, Drain(reader, c.rest).texts);
    }
  }

  lemma {:induction false} RunHandsFrames<V>(reader: string -> Reading<V>, pieces: seq<string>)
    ensures AllFrames(Run(reader, pieces).texts)
  {
    if pieces != [] {
      var before, piece := pieces[..|pieces| - 1], pieces[|pieces| - 1];
      RunHandsFrames(reader, before);
      DrainHandsFrames(reader, Run(reader, before).rest + piece);
      FramesOfBoth(Run(reader, before).texts, Drain(reader, Run(reader, before).rest + piece).texts);
    }
  }

  /** A stream of messages between blanks, in any pieces: the reader is given exactly these messages
      if and only if each of them is framed and no read loses blanks. */
  lemma MessagesArriveIff<V(!new)>(reader: string -> Reading<V>, pieces: seq<string>,
                                   gaps: seq<string>, messages: seq<string>)
    requires |gaps| == |messages| + 1
    requires forall i :: 0 <= i < |gaps| ==> AllBlank(gaps[i])
    requires Joined(pieces) == Interleaved(gaps, messages) && Accepted(reader, messages)
    ensures Run(reader, pieces).texts == messages <==> AllFrames(messages) && Lossless(pieces)
    ensures AllFrames(messages) && Lossless(pieces) ==>
              Run(reader, pieces) == Drained(Values(reader, messages), messages, "")
  {
    RunHandsFrames(reader, pieces);
    if AllFrames(messages) {
      SplitOfMessages(gaps, messages);
      ExactIffLossless(reader, pieces);
    }
  }

  lemma BlankIsNotKept(first: string, second: string)
    requires Frame(first + second) && first != "" && second != "" && IsBlank(first[|first| - 1])
    ensures Opens(first) && !KeepsBlanks(first) && Split(first) == Parts([], first)
  {
    assert Opens(first) by {
      assert (first + second)[0] == first[0];
    }
    assert !FindEnd(first, OUTSIDE).Complete? by {
      FindEndResumes(first, second, OUTSIDE);
    }
    assert Lead(first) == 0 && Skip(first) == first;
    SplitStep(first);
    TrailFinds(first);
  }

  /** The first text is still coming in too short, or another has been handed out in its place. */
  ghost predicate FirstIsWrong<V>(r: Drained<V>, p: Parts) {
    if p.texts == [] then r.texts == [] && Short(r.rest, p.rest) else r.texts != [] && r.texts[0] != p.texts[0]
  }

  lemma FirstStep<V(!new)>(reader: string -> Reading<V>, r: Drained<V>, p: Parts, piece: string)
    requires FirstIsWrong(r, p)
    ensures var d, q := Drain(reader, r.rest + piece), Split(p.rest + piece);
            FirstIsWrong(Drained(r.values + d.values, r.texts + d.texts, d.rest), Parts(p.texts + q.texts, q.rest))
  {
    var d, q := Drain(reader, r.rest + piece), Split(p.rest + piece);
    if p.texts == [] {
      ShortStays(reader, r.rest, p.rest, piece);
      EmptyFirst(d.texts);
      EmptyFirst(q.texts);
    }
  }

  lemma OneMoreRead<V(!new)>(reader: string -> Reading<V>, pieces: seq<string>, n: nat)
    requires 0 < n <= |pieces| && FirstIsWrong(Run(reader, pieces[..n - 1]), Split(Joined(pieces[..n - 1])))
    ensures FirstIsWrong(Run(reader, pieces[..n]), Split(Joined(pieces[..n])))
  {
    var before, piece := pieces[..n - 1], pieces[n - 1];
    assert pieces[..n][..n - 1] == before;
    FirstStep(reader, Run(reader, before), Split(Joined(before)), piece);
    SplitResumes(Joined(before), piece);
  }

  /** A beginning of a message, all in one read, that ends in a blank. */
  ghost predicate Doomed(first: string) {
    Opens(first) && !KeepsBlanks(first) && Split(first) == Parts([], first)
  }

  lemma ReadOfOne<V(!new)>(reader: string -> Reading<V>, first: string)
    requires Doomed(first)
    ensures FirstIsWrong(Run(reader, [first]), Split(Joined([first])))
  {
    RunOfOne(reader, first);
    JoinedOne(first);
    FirstLossIsWrong(reader, first);
  }

  lemma JoinedOne(piece: string)
    ensures Joined([piece]) == piece
  {
    assert [piece][..0] == [] && "" + piece == piece;
  }

  lemma FirstLossIsWrong<V(!new)>(reader: string -> Reading<V>, first: string)
    requires Doomed(first)
    ensures FirstIsWrong(Drain(reader, first), Split(first))
  {
    FirstLoss(reader, first);
  }

  lemma FirstRead<V(!new)>(reader: string -> Reading<V>, pieces: seq<string>)
    requires pieces != [] && Doomed(pieces[0])
    ensures FirstIsWrong(Run(reader, pieces[..1]), Split(Joined(pieces[..1])))
  {
    ReadOfOne(reader, pieces[0]);
    assert pieces[..1] == [pieces[0]];
  }

  /** After such a read the text of the message stays too short, and so the first text handed out is
      another. */
  lemma {:induction false} FirstStaysWrong<V(!new)>(reader: string -> Reading<V>, pieces: seq<string>, n: nat)
    requires 0 < n <= |pieces| && Doomed(pieces[0])
    ensures FirstIsWrong(Run(reader, pieces[..n]), Split(Joined(pieces[..n])))
    decreases n
  {
    if n == 1 {
      FirstRead(reader, pieces);
    } else {
      FirstStaysWrong(reader, pieces, n - 1);
      OneMoreRead(reader, pieces, n);
    }
  }

  lemma RunOfOne<V>(reader: string -> Reading<V>, piece: string)
    ensures Run(reader, [piece]) == Drain(reader, piece)
  {
    var d := Drain(reader, piece);
    assert [piece][..0] == [] && "" + piece == piece;
    EmptyFirst(d.values);
    EmptyFirst(d.texts);
  }

  /** A message whose first read ends in a blank never arrives, whatever is read afterwards: the
      first text handed to the reader is another. */
  lemma BlankAtBoundaryIsLost<V(!new)>(reader: string -> Reading<V>, pieces: seq<string>, second: string, later: string)
    requires pieces != [] && pieces[0] != "" && second != "" && IsBlank(pieces[0][|pieces[0]| - 1])
    requires Frame(pieces[0] + second) && Joined(pieces) == pieces[0] + second + later
    ensures var texts := Run(reader, pieces).texts;
            texts != [] && texts[0] != pieces[0] + second
  {
    var m := pieces[0] + second;
    BlankIsNotKept(pieces[0], second);
    FirstStaysWrong(reader, pieces, |pieces|);
    assert pieces[..|pieces|] == pieces;
    FindEndResumes(m, later, OUTSIDE);
    FirstPart(m + later);
    TakeDrop(m, later);
  }
}
