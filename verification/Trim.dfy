/** `trim_whitespace`, as the JSON-RPC read loop uses it. It passes the position behind the last
    non-blank character to `substr` as a length, and so does not always trim the end. */
module Trim {

  predicate IsBlank(c: char) {
    c == ' ' || c == '\t' || c == '\U{000c}' || c == '\U{000b}' || c == '\n' || c == '\r'
  }

  lemma BlankIff(c: char)
    ensures IsBlank(c) <==> c as int == 32 || 9 <= c as int <= 13
  {
  }

  /** `find_first_not_of`, from position i. */
  function FirstNonBlank(s: string, i: nat): (k: nat)
    requires i <= |s|
    ensures i <= k <= |s|
    decreases |s| - i
  {
    if i < |s| && IsBlank(s[i]) then FirstNonBlank(s, i + 1) else i
  }

  /** The position behind `find_last_not_of`, looking back from position j. */
  function BehindLastNonBlank(s: string, j: nat): (k: nat)
    requires j <= |s|
    ensures k <= j
  {
    if j > 0 && IsBlank(s[j - 1]) then BehindLastNonBlank(s, j - 1) else j
  }

  /** The number of leading blanks. */
  function Lead(s: string): (n: nat)
    ensures n <= |s|
  {
    FirstNonBlank(s, 0)
  }

  /** The number of trailing blanks. */
  function Trail(s: string): (n: nat)
    ensures n <= |s|
  {
    |s| - BehindLastNonBlank(s, |s|)
  }

  predicate AllBlank(s: string) {
    Lead(s) == |s|
  }

  lemma {:induction false} FirstNonBlankFinds(s: string, i: nat)
    requires i <= |s|
    ensures var k := FirstNonBlank(s, i);
            (forall j :: i <= j < k ==> IsBlank(s[j])) && (k < |s| ==> !IsBlank(s[k]))
    decreases |s| - i
  {
    if i < |s| && IsBlank(s[i]) {
      FirstNonBlankFinds(s, i + 1);
    }
  }

  lemma {:induction false} BehindLastNonBlankFinds(s: string, j: nat)
    requires j <= |s|
    ensures var k := BehindLastNonBlank(s, j);
            (forall i :: k <= i < j ==> IsBlank(s[i])) && (k > 0 ==> !IsBlank(s[k - 1]))
  {
    if j > 0 && IsBlank(s[j - 1]) {
      BehindLastNonBlankFinds(s, j - 1);
    }
  }

  lemma LeadFinds(s: string)
    ensures forall i :: 0 <= i < Lead(s) ==> IsBlank(s[i])
    ensures !AllBlank(s) ==> !IsBlank(s[Lead(s)])
  {
    FirstNonBlankFinds(s, 0);
  }

  lemma TrailFinds(s: string)
    ensures forall i :: |s| - Trail(s) <= i < |s| ==> IsBlank(s[i])
    ensures Trail(s) < |s| ==> !IsBlank(s[|s| - Trail(s) - 1])
  {
    BehindLastNonBlankFinds(s, |s|);
  }

  /** What trimming is meant to be. */
  function TrueTrim(s: string): string {
    if AllBlank(s) then "" else (LeadTrailDisjoint(s); s[Lead(s)..|s| - Trail(s)])
  }

  /** `std::string::substr`. */
  function Substr(s: string, pos: nat, count: nat): string
    requires pos <= |s|
  {
    if pos + count <= |s| then s[pos..pos + count] else s[pos..]
  }

  /** `trim_whitespace`: start is the first, end the last non-blank position. */
  function TrimWhitespace(s: string): (r: string)
    ensures |r| <= |s|
    ensures r == "" <==> AllBlank(s)
    ensures r != "" ==> !IsBlank(r[0])
  {
    LeadFinds(s);
    if AllBlank(s) then ""
    else
      LeadTrailDisjoint(s);
      var start := Lead(s);
      var behindEnd := |s| - Trail(s);
      Substr(s, start, behindEnd)
  }

  function Min(a: nat, b: nat): nat {
    if a <= b then a else b
  }

  lemma LeadTrailDisjoint(s: string)
    requires !AllBlank(s)
    ensures Lead(s) + Trail(s) < |s|
  {
    LeadFinds(s);
    TrailFinds(s);
  }

  lemma LeadUnique(s: string, n: nat)
    requires n < |s| && !IsBlank(s[n]) && forall i :: 0 <= i < n ==> IsBlank(s[i])
    ensures Lead(s) == n
  {
    LeadFinds(s);
  }

  lemma BlanksAreAllBlank(w: string)
    requires forall i :: 0 <= i < |w| ==> IsBlank(w[i])
    ensures AllBlank(w) && Trail(w) == |w|
  {
    LeadFinds(w);
    TrailFinds(w);
  }

  lemma TrailUnique(s: string, n: nat)
    requires n < |s| && !IsBlank(s[|s| - n - 1]) && forall i :: |s| - n <= i < |s| ==> IsBlank(s[i])
    ensures Trail(s) == n
  {
    TrailFinds(s);
  }

  lemma SubstrIs(s: string, l: nat, t: nat)
    requires l + t < |s|
    ensures Substr(s, l, |s| - t) == s[l..|s| - (t - Min(l, t))]
    ensures Substr(s, l, |s| - t) == s[l..|s| - t] + s[|s| - t..][..Min(l, t)]
  {
    Slices(s, l, |s| - t, Min(l, t));
  }

  lemma Slices<T>(s: seq<T>, i: nat, j: nat, k: nat)
    requires i <= j && j + k <= |s|
    ensures s[i..j + k] == s[i..j] + s[j..][..k]
  {
  }

  lemma TrimForms(s: string, l: nat, t: nat)
    requires l == Lead(s) && t == Trail(s) && l + t < |s|
    ensures TrimWhitespace(s) == Substr(s, l, |s| - t)
    ensures TrueTrim(s) == s[l..|s| - t]
  {
  }

  lemma TrimIsSlice(s: string, l: nat, t: nat)
    requires !AllBlank(s) && l == Lead(s) && t == Trail(s)
    ensures l + t < |s| && TrimWhitespace(s) == s[l..|s| - (t - Min(l, t))]
  {
    LeadTrailDisjoint(s);
    TrimForms(s, l, t);
    SubstrIs(s, l, t);
  }

  /** With l leading and t trailing blanks, the result is the true trim followed by the first
      min(l, t) trailing blanks. */
  lemma TrimKeepsSomeTrailing(s: string, l: nat, t: nat)
    requires !AllBlank(s) && l == Lead(s) && t == Trail(s)
    ensures l + t < |s| && TrimWhitespace(s) == TrueTrim(s) + s[|s| - t..][..Min(l, t)]
  {
    LeadTrailDisjoint(s);
    TrimForms(s, l, t);
    SubstrIs(s, l, t);
  }

  /** Trimming is exact precisely when there is nothing to trim on one of the two sides. */
  lemma TrimExactIff(s: string)
    ensures TrimWhitespace(s) == TrueTrim(s) <==> AllBlank(s) || Lead(s) == 0 || Trail(s) == 0
  {
    if !AllBlank(s) {
      LeadTrailDisjoint(s);
      TrimKeepsSomeTrailing(s, Lead(s), Trail(s));
    }
  }

  /** The blanks at the ends of a slice that starts at the first and ends behind the last
      non-blank character. */
  lemma TrimmedEnds(s: string, k: nat)
    requires !AllBlank(s) && k <= Trail(s)
    ensures Lead(s) + Trail(s) < |s|
    ensures var r := s[Lead(s)..|s| - (Trail(s) - k)];
            !AllBlank(r) && Lead(r) == 0 && Trail(r) == k && r[..|r| - k] == TrueTrim(s)
  {
    LeadTrailDisjoint(s);
    var r := s[Lead(s)..|s| - (Trail(s) - k)];
    LeadFinds(s);
    TrailFinds(s);
    assert r[0] == s[Lead(s)] && r[|r| - k - 1] == s[|s| - Trail(s) - 1];
    LeadUnique(r, 0);
    TrailUnique(r, k);
  }

  /** Trimming twice is the true trim. */
  lemma TrimTwice(s: string)
    ensures TrimWhitespace(TrimWhitespace(s)) == TrueTrim(s)
  {
    if !AllBlank(s) {
      var k := Min(Lead(s), Trail(s));
      TrimIsSlice(s, Lead(s), Trail(s));
      TrimmedEnds(s, k);
      TrimIsSlice(TrimWhitespace(s), 0, k);
    }
  }
}
