/** The driver shared by every regular expression of the core. A pattern is a
    matcher that tries one start position, as a backtracking engine anchored at
    that position would; `String.prototype.match` without the `g` flag is the
    leftmost start position that matches (`FirstMatch`), and with the `g` flag
    it is the list of matches found by restarting at the end of each match
    (`AllMatches`). Every pattern of the core consumes at least one character,
    so the empty position at the very end of the text never matches and the
    scan stops before it. */
module Scan {
  import opened Text

  /** One match: where it starts and ends, and the text the caller keeps
      (a capture group, or the whole match). */
  datatype Found = Found(start: nat, end: nat, text: seq<char>)

  /** `m(s, i)` is the match of a pattern anchored at position `i` of `s`. */
  type Matcher = (seq<char>, nat) -> Option<Found>

  /** The matcher reports matches that start where they were tried, end
      after that, and stay inside the text. */
  ghost predicate WellFormed(m: Matcher)
  {
    forall s: seq<char>, i: nat :: m(s, i).Some? ==> m(s, i).value.start == i && i < m(s, i).value.end <= |s|
  }

  /** The leftmost position at or after `p` where `m` matches. */
  function FirstAt(m: Matcher, s: seq<char>, p: nat): (r: Option<nat>)
    decreases |s| - p
    ensures r.Some? ==> p <= r.value < |s| && m(s, r.value).Some?
    ensures r.Some? ==> forall j :: p <= j < r.value ==> m(s, j).None?
    ensures r.None? ==> forall j :: p <= j < |s| ==> m(s, j).None?
  {
    if p >= |s| then None
    else if m(s, p).Some? then Some(p)
    else FirstAt(m, s, p + 1)
  }

  /** `s.match(re)` for a pattern without the `g` flag. */
  function FirstMatch(m: Matcher, s: seq<char>): (r: Option<Found>)
  {
    match FirstAt(m, s, 0)
    case None => None
    case Some(i) => m(s, i)
  }

  /** The start positions of the matches a `g`-flagged scan visits from `p`:
      after a match the scan goes on at its end (one past its start if it was
      empty, as `lastIndex` does). */
  function AllStarts(m: Matcher, s: seq<char>, p: nat): (r: seq<nat>)
    decreases |s| - p
    ensures forall k :: 0 <= k < |r| ==> p <= r[k] < |s| && m(s, r[k]).Some?
    ensures forall k, l :: 0 <= k < l < |r| ==> r[k] < r[l]
  {
    match FirstAt(m, s, p)
    case None => []
    case Some(i) =>
      var e := m(s, i).value.end;
      var next := if e > i then e else i + 1;
      [i] + AllStarts(m, s, next)
  }

  /** `s.match(re)` for a `g`-flagged pattern: every match, in order. */
  function AllMatches(m: Matcher, s: seq<char>): (r: seq<Found>)
    ensures |r| == |AllStarts(m, s, 0)|
  {
    var st := AllStarts(m, s, 0);
    seq(|st|, k requires 0 <= k < |st| => m(s, st[k]).value)
  }

  /** No match starts strictly inside another match. */
  ghost predicate NoMatchInside(m: Matcher, s: seq<char>)
  {
    forall i, j :: 0 <= i < j < |s| && m(s, i).Some? && j < m(s, i).value.end ==> m(s, j).None?
  }

  /** For a pattern whose matches can never start inside one another, the
      global scan visits exactly the positions where the pattern matches. */
  lemma {:induction false} AllStartsExact(m: Matcher, s: seq<char>, p: nat)
    requires WellFormed(m) && NoMatchInside(m, s)
    decreases |s| - p
    ensures forall i :: p <= i < |s| ==> (m(s, i).Some? <==> i in AllStarts(m, s, p))
  {
    match FirstAt(m, s, p)
    case None =>
    case Some(i) =>
      var e := m(s, i).value.end;
      assert e > i;
      AllStartsExact(m, s, e);
      assert AllStarts(m, s, p) == [i] + AllStarts(m, s, e);
      forall j | p <= j < |s|
        ensures m(s, j).Some? <==> j in AllStarts(m, s, p)
      {
        if i < j < e {
          assert m(s, j).None?;
          assert j !in AllStarts(m, s, e);
        }
      }
  }

  /** The index of the first match that `q` accepts (the `for ... break` over
      the result of a global match). */
  function FirstWhere(ms: seq<Found>, q: Found -> bool, k: nat): (r: Option<nat>)
    decreases |ms| - k
    ensures r.Some? ==> k <= r.value < |ms| && q(ms[r.value])
    ensures r.Some? ==> forall j :: k <= j < r.value ==> !q(ms[j])
    ensures r.None? ==> forall j :: k <= j < |ms| ==> !q(ms[j])
  {
    if k >= |ms| then None
    else if q(ms[k]) then Some(k)
    else FirstWhere(ms, q, k + 1)
  }

  /** A loop that stops at the first accepted element stops where `FirstWhere` points. */
  lemma FirstWhereAt(ms: seq<Found>, q: Found -> bool, n: nat)
    requires n < |ms| && q(ms[n]) && forall j :: 0 <= j < n ==> !q(ms[j])
    ensures FirstWhere(ms, q, 0) == Some(n)
  {
  }

  /** `m` matches at `i` and `q` accepts the match. */
  predicate AcceptedAt(m: Matcher, s: seq<char>, q: Found -> bool, i: nat)
  {
    m(s, i).Some? && q(m(s, i).value)
  }

  /** Every accepted position of the text is the start of some element of
      the global match list. */
  lemma AcceptedIsVisited(m: Matcher, s: seq<char>, q: Found -> bool, i: nat)
    requires WellFormed(m) && NoMatchInside(m, s)
    requires i < |s| && AcceptedAt(m, s, q, i)
    ensures exists l :: 0 <= l < |AllStarts(m, s, 0)| && AllStarts(m, s, 0)[l] == i
                        && q(AllMatches(m, s)[l])
  {
    AllStartsExact(m, s, 0);
    var st := AllStarts(m, s, 0);
    assert i in st;
    var l :| 0 <= l < |st| && st[l] == i;
    assert AllMatches(m, s)[l] == m(s, i).value;
  }

  /** For a pattern whose matches never start inside one another, the first
      accepted element of the global match list is the accepted match at the
      leftmost position of the text. */
  lemma LeftmostAccepted(m: Matcher, s: seq<char>, q: Found -> bool)
    requires WellFormed(m) && NoMatchInside(m, s)
    ensures var r := FirstWhere(AllMatches(m, s), q, 0);
      r.None? <==> forall i :: 0 <= i < |s| ==> !AcceptedAt(m, s, q, i)
    ensures var r := FirstWhere(AllMatches(m, s), q, 0); var st := AllStarts(m, s, 0);
      r.Some? ==> && r.value < |st| && AcceptedAt(m, s, q, st[r.value])
                  && AllMatches(m, s)[r.value] == m(s, st[r.value]).value
                  && forall j :: 0 <= j < st[r.value] ==> !AcceptedAt(m, s, q, j)
  {
    var ms := AllMatches(m, s);
    var st := AllStarts(m, s, 0);
    var r := FirstWhere(ms, q, 0);
    if r.Some? {
      var k := r.value;
      assert ms[k] == m(s, st[k]).value;
      assert AcceptedAt(m, s, q, st[k]);
      forall j | 0 <= j < st[k] ensures !AcceptedAt(m, s, q, j) {
        if AcceptedAt(m, s, q, j) {
          AcceptedIsVisited(m, s, q, j);
        }
      }
    } else {
      forall i | 0 <= i < |s| ensures !AcceptedAt(m, s, q, i) {
        if AcceptedAt(m, s, q, i) {
          AcceptedIsVisited(m, s, q, i);
        }
      }
    }
  }
}
